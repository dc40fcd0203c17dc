/** Nothing gets stuck: an admissible transaction can be carried through to its commit, and whatever state
    recovery meets, short of a halt, can be brought to rest.  */
module CompleteRuns {
  import opened ChainModel
  import opened ChainRules
  import opened ChainDisk
  import opened RecordStore
  import opened Agreement
  import opened Protocol
  import opened ProtocolSafety
  import opened ProtocolTheorems
  import opened Convergence

  // ---- runs between two states ----

  ghost predicate IsPath(run: seq<State>, s: State, s': State) {
    && |run| > 0 && run[0] == s && run[|run| - 1] == s'
    && forall i :: 0 <= i < |run| - 1 ==> QuietStep(run[i], run[i + 1])
  }

  /** Quiet steps lead from one state to the other. */
  ghost predicate Leads(s: State, s': State) {
    exists run :: IsPath(run, s, s')
  }

  lemma Stays(s: State)
    ensures Leads(s, s)
  {
    assert IsPath([s], s, s);
  }

  lemma Then(s: State, m: State, s': State)
    requires Leads(s, m) && QuietStep(m, s')
    ensures Leads(s, s')
  {
    var run :| IsPath(run, s, m);
    var longer := run + [s'];
    forall i | 0 <= i < |longer| - 1 ensures QuietStep(longer[i], longer[i + 1]) {
      if i < |run| - 1 {
        assert QuietStep(run[i], run[i + 1]);
      }
    }
    assert IsPath(longer, s, s');
  }

  lemma {:induction false} Joins(s: State, m: State, s': State)
    requires Leads(s, m) && Leads(m, s')
    ensures Leads(s, s')
  {
    var run :| IsPath(run, m, s');
    JoinsRun(s, m, run);
  }

  lemma {:induction false} JoinsRun(s: State, m: State, run: seq<State>)
    requires Leads(s, m) && |run| > 0 && IsPath(run, m, run[|run| - 1])
    ensures Leads(s, run[|run| - 1])
    decreases |run|
  {
    if |run| > 1 {
      assert QuietStep(run[0], run[0 + 1]);
      Then(s, m, run[1]);
      var rest := run[1..];
      forall i | 0 <= i < |rest| - 1 ensures QuietStep(rest[i], rest[i + 1]) {
        assert QuietStep(run[i + 1], run[i + 1 + 1]);
      }
      JoinsRun(s, run[1], rest);
    }
  }

  lemma {:induction false} LeadsKeepsInv(run: seq<State>, s: State, s': State)
    requires IsPath(run, s, s') && Inv(s)
    ensures Inv(s')
  {
    if |run| > 1 {
      var front := run[..|run| - 1];
      assert IsPath(front, s, front[|front| - 1]);
      LeadsKeepsInv(front, s, front[|front| - 1]);
      assert QuietStep(run[|run| - 2], run[|run| - 2 + 1]);
      StepKeeps(front[|front| - 1], s');
    }
  }

  /** A step that is no entry into recovery. */
  lemma Goes(s: State, m: State, s': State)
    requires Leads(s, m) && Step(m, s') && !s'.process.Derived? && Inv(m)
    ensures Leads(s, s') && Inv(s')
  {
    assert !Reads(m, s');
    Then(s, m, s');
    StepKeeps(m, s');
  }

  /** At rest, or between the writes of a command, the process knows the whole chain. */
  predicate Informed(p: Process) {
    p.Ready? || p.Binding? || p.Submitted? || p.Executing? || p.Deciding? || p.Planning? || p.Acting?
  }

  lemma Knows(s: State) returns (h: Hist)
    requires Inv(s) && Informed(s.process)
    ensures InvWith(s, h, None) && Validates(s.disk, h) && Stage !in View(s.disk)
  {
    var next;
    h, next :| InvWith(s, h, next);
    ViewReads(s.disk, h, next);
    AgreementIsClean(s.store, h);
  }

  lemma KnowsThat(s: State, h: Hist)
    requires Inv(s) && Informed(s.process) && ReadsAs(s.disk, h)
    ensures InvWith(s, h, None) && Validates(s.disk, h) && Stage !in View(s.disk)
  {
    var h' := Knows(s);
    ReadsAsUnique(s.disk, h, h');
  }

  // ---- one append, one binding ----

  /** An append that has been started can be finished. */
  lemma AppendCompletes(o: State, s: State, h: Hist) returns (s': State)
    requires Leads(o, s) && Inv(s) && s.process.Appending? && s.process.point.Created?
    requires s.process.digest == NextDigest(h, s.process.entry)
    ensures Leads(o, s') && Inv(s') && s'.store == s.store && ReadsAs(s'.disk, Snoc(h, s.process.entry))
    ensures s'.process == if s.process.cont.Plain? then Ready else Binding(s.process.cont.column, s.process.digest, s.process.cont)
  {
    var h', next :| InvWith(s, h', next);
    TipInjective(h, h');
    var f, g, e := s.process.file, s.process.digest, s.process.entry;
    WriteFileHolds(s.disk, h, None, f, g.content);
    var written := WriteFile(s.disk, f, g.content);
    FlushFileHolds(written, h, None, f);
    var flushed := FlushFile(written, f);
    ViewReads(flushed, h, None);
    NextDigestIsFresh(h, e);
    PublishHolds(flushed, h, e);
    var published := PublishStage(flushed, g);
    FlushDirectoryHolds(published, h, Some(e));
    ViewReads(FlushDirectory(published), Snoc(h, e), None);
    s' := AppendSteps(o, s, flushed);
  }

  lemma AppendSteps(o: State, s: State, flushed: Disk) returns (s': State)
    requires Leads(o, s) && Inv(s) && s.process.Appending? && s.process.point.Created? && s.process.file in s.disk.files
    requires flushed == FlushFile(WriteFile(s.disk, s.process.file, s.process.digest.content), s.process.file)
    requires Stage in View(flushed) && Leaf(s.process.digest) !in View(flushed)
    ensures Leads(o, s') && Inv(s') && s'.store == s.store && s'.disk == FlushDirectory(PublishStage(flushed, s.process.digest))
    ensures s'.process == if s.process.cont.Plain? then Ready else Binding(s.process.cont.column, s.process.digest, s.process.cont)
  {
    var f, g := s.process.file, s.process.digest;
    var a := s.(disk := WriteFile(s.disk, f, g.content), process := s.process.(point := Filled));
    assert Fill(s, a);
    Goes(o, s, a);
    var b := s.(disk := flushed, process := s.process.(point := Flushed));
    assert FlushStage(a, b);
    Goes(o, a, b);
    var c := s.(disk := PublishStage(flushed, g), process := s.process.(point := Renamed));
    assert Rename(b, c);
    Goes(o, b, c);
    s' := s.(disk := FlushDirectory(c.disk),
             process := if s.process.cont.Plain? then Ready else Binding(s.process.cont.column, g, s.process.cont));
    assert FinishAppend(c, s');
    Goes(o, c, s');
  }

  /** A step's worth of starting an append. */
  function Staged(s: State, h: Hist, e: Entry, f: nat, cont: Cont): State {
    s.(disk := CreateStage(s.disk, f), process := Appending(e, NextDigest(h, e), f, Created, cont))
  }

  lemma Starts(s: State, h: Hist, e: Entry, f: nat, cont: Cont)
    requires Validates(s.disk, h) && Stage !in View(s.disk) && Rooted(Snoc(h, e)) && f !in s.disk.files
    ensures StartAppend(s, Staged(s, h, e, f, cont), e, cont)
  {
  }

  // ---- the active record's own steps ----

  /** A store in which `t` is active with record `r`. */
  function ActiveIn(st: Store, t: Txid, r: Record): Store {
    Store(st.records[t := r], Some(t))
  }

  lemma ActiveTwice(st: Store, t: Txid, a: Record, b: Record)
    ensures ActiveIn(ActiveIn(st, t, a), t, b) == ActiveIn(st, t, b)
  {
    assert st.records[t := a][t := b] == st.records[t := b];
  }

  lemma BoundIsActive(s: State, s': State, st: Store, t: Txid, r: Record)
    requires Bind(s, s') && s.process.cont.Forward? && s.process.cont.column == s.process.column && s.store == ActiveIn(st, t, r)
    ensures s'.disk == s.disk && s'.process == if s.process.column.RegistrationColumn? then Executing else Planning
    ensures s'.store == ActiveIn(st, t, if s.process.column.RegistrationColumn? then r.(registration := Some(s.process.digest))
                                        else r.(settlement := Some(s.process.digest)))
  {
    ActiveTwice(st, t, r, s'.store.records[t]);
  }

  lemma BindIsPossible(s: State) returns (s': State)
    requires Inv(s) && s.process.Binding?
    ensures Bind(s, s') && !s.process.cont.Plain? && s.process.cont.column == s.process.column
  {
    var h := Knows(s);
    BindingIsAccepted(s, h);
    s' :| Bind(s, s');
  }

  /** The digest of an appended entry is bound to the active record. */
  lemma Binds(o: State, s: State, st: Store, t: Txid, r: Record) returns (s': State)
    requires Leads(o, s) && Inv(s) && s.process.Binding? && s.process.cont.Forward? && s.store == ActiveIn(st, t, r)
    ensures Leads(o, s') && Inv(s') && s'.disk == s.disk
    ensures s'.process == if s.process.column.RegistrationColumn? then Executing else Planning
    ensures s'.store == ActiveIn(st, t, if s.process.column.RegistrationColumn? then r.(registration := Some(s.process.digest))
                                        else r.(settlement := Some(s.process.digest)))
  {
    s' := BindIsPossible(s);
    BoundIsActive(s, s', st, t, r);
    Goes(o, s, s');
  }

  lemma ExecutorIsLive(s: State)
    requires Inv(s) && s.process.Executing?
    ensures ActiveRecord(s.store).Some? && !IsHalted(s.store) && ActiveRecord(s.store).value.registration.Some?
  {
  }

  lemma AdvanceIsStep(s: State, s': State, to: TxState)
    requires s.process.Executing? && ActiveRecord(s.store).Some? && !IsHalted(s.store) && ActiveRecord(s.store).value.registration.Some?
    requires var from := ActiveRecord(s.store).value.state;
      (from == Prepared && to == Applying) || (from == Applying && to == Applied) || (from == Applied && to == CommittedState)
    requires s' == s.(store := ActiveIn(s.store, s.store.active.value, ActiveRecord(s.store).value.(state := to)),
                      process := if to == CommittedState then Deciding else Executing)
    ensures Step(s, s')
  {
    assert SetState(s.store, s.store.active.value, to) == Some(s'.store);
    assert ExecuteState(s, s');
  }

  /** One state change of the forward executor. */
  lemma AdvancesTo(o: State, s: State, st: Store, t: Txid, r: Record, to: TxState) returns (s': State)
    requires Leads(o, s) && Inv(s) && s.process.Executing? && s.store == ActiveIn(st, t, r)
    requires (r.state == Prepared && to == Applying) || (r.state == Applying && to == Applied) || (r.state == Applied && to == CommittedState)
    ensures Leads(o, s') && Inv(s') && s'.disk == s.disk && s'.process == if to == CommittedState then Deciding else Executing
    ensures s'.store == ActiveIn(st, t, r.(state := to))
  {
    ExecutorIsLive(s);
    ActiveTwice(st, t, r, r.(state := to));
    s' := s.(store := ActiveIn(st, t, r.(state := to)), process := if to == CommittedState then Deciding else Executing);
    AdvanceIsStep(s, s', to);
    Goes(o, s, s');
  }

  /** The same state with other journals in the active record. */
  function Journaled(s: State, journals: seq<Journal>): State
    requires s.store.active.Some? && s.store.active.value in s.store.records
  {
    var t := s.store.active.value;
    s.(store := Store(s.store.records[t := s.store.records[t].(journals := journals)], Some(t)))
  }

  lemma JournaledTwice(s: State, a: seq<Journal>, b: seq<Journal>)
    requires s.store.active.Some? && s.store.active.value in s.store.records
    ensures Journaled(Journaled(s, a), b) == Journaled(s, b)
    ensures Journaled(s, s.store.records[s.store.active.value].journals) == s
  {
    var t := s.store.active.value;
    assert s.store.records[t := s.store.records[t]] == s.store.records;
  }

  lemma JournalIsStep(s: State, i: nat, to: Journal)
    requires s.process.Executing? && ActiveRecord(s.store).Some? && !IsHalted(s.store) && ActiveRecord(s.store).value.registration.Some?
    requires var r := ActiveRecord(s.store).value;
      r.state == Applying && i < |r.journals| && ((r.journals[i] == Pending && to == Started) || (r.journals[i] == Started && to == Done))
    ensures Step(s, Journaled(s, ActiveRecord(s.store).value.journals[i := to]))
  {
    var s' := Journaled(s, ActiveRecord(s.store).value.journals[i := to]);
    assert SetJournal(s.store, s.store.active.value, i, to) == Some(s'.store);
    assert (ActiveRecord(s.store).value.journals[i], to) in {(Pending, Started), (Started, Done)};
    assert MoveJournal(s, s', {(Pending, Started), (Started, Done)});
    assert ExecuteJournal(s, s');
  }

  lemma MovesJournal(o: State, s: State, journals: seq<Journal>, i: nat, to: Journal)
    requires s.process.Executing? && s.store.active.Some? && s.store.active.value in s.store.records
    requires s.store.records[s.store.active.value].state == Applying && Leads(o, Journaled(s, journals)) && Inv(Journaled(s, journals))
    requires i < |journals| && ((journals[i] == Pending && to == Started) || (journals[i] == Started && to == Done))
    ensures Leads(o, Journaled(s, journals[i := to])) && Inv(Journaled(s, journals[i := to]))
  {
    ExecutorIsLive(Journaled(s, journals));
    JournalIsStep(Journaled(s, journals), i, to);
    JournaledTwice(s, journals, journals[i := to]);
    Goes(o, Journaled(s, journals), Journaled(s, journals[i := to]));
  }

  /** The first `i` effects done, the others pending. */
  function DoneUpTo(n: nat, i: nat): seq<Journal>
    requires i <= n
  {
    seq(n, k => if k < i then Done else Pending)
  }

  lemma UpToEnds(n: nat)
    ensures DoneUpTo(n, 0) == seq(n, _ => Pending) && DoneUpTo(n, n) == seq(n, _ => Done)
    ensures forall i :: 0 <= i < n ==> DoneUpTo(n, i)[i] == Pending && DoneUpTo(n, i)[i := Started][i := Done] == DoneUpTo(n, i + 1)
  {
  }

  /** Every effect is started and done, in order. */
  lemma {:induction false} DoesAll(o: State, s: State, n: nat, i: nat)
    requires s.store.active.Some? && s.store.active.value in s.store.records && s.store.records[s.store.active.value].state == Applying
    requires s.process.Executing? && i <= n && Leads(o, Journaled(s, DoneUpTo(n, i))) && Inv(Journaled(s, DoneUpTo(n, i)))
    ensures Leads(o, Journaled(s, DoneUpTo(n, n))) && Inv(Journaled(s, DoneUpTo(n, n)))
    decreases n - i
  {
    if i < n {
      UpToEnds(n);
      MovesJournal(o, s, DoneUpTo(n, i), i, Started);
      MovesJournal(o, s, DoneUpTo(n, i)[i := Started], i, Done);
      DoesAll(o, s, n, i + 1);
    }
  }

  // ---- from submission to the commit decision ----

  function Fresh(body: string, fulfills: Option<Digest>, effects: nat): Record {
    Record(body, fulfills, Prepared, seq(effects, _ => Pending), None, None, None, false)
  }

  lemma Submits(s: State, h: Hist, t: Txid, body: string, fulfills: Option<Digest>, effects: nat) returns (s': State)
    requires Inv(s) && s.process.Ready? && ReadsAs(s.disk, h) && h.Snoc? && t !in s.store.records && Gate(h, fulfills)
    ensures Leads(s, s') && Inv(s') && s'.disk == s.disk && s'.process.Submitted?
    ensures s'.store == ActiveIn(s.store, t, Fresh(body, fulfills, effects))
  {
    KnowsThat(s, h);
    AgreementIsClean(s.store, h);
    s' := s.(store := ActiveIn(s.store, t, Fresh(body, fulfills, effects)), process := Submitted);
    assert Prepare(s.store, t, body, fulfills, effects) == Some(s'.store);
    assert Submit(s, s');
    Stays(s);
    Goes(s, s, s');
  }

  /** The active record's registration is staged, or the settlement of its commit. */
  lemma StagesOwn(o: State, s: State, h: Hist, e: Entry, cont: Cont) returns (s': State)
    requires Leads(o, s) && Inv(s) && ReadsAs(s.disk, h) && Rooted(Snoc(h, e)) && ActiveRecord(s.store).Some?
    requires
      || (s.process.Submitted? && cont == Forward(RegistrationColumn) && e == RegEntry(s.store.active.value, ActiveRecord(s.store).value))
      || (s.process.Deciding? && cont == Forward(SettlementColumn) && ActiveRecord(s.store).value.registration.Some?
          && e == Settled(s.store.active.value, ActiveRecord(s.store).value.registration.value, Committed))
    ensures Leads(o, s') && Inv(s') && s'.store == s.store
    ensures s'.process.Appending? && s'.process.point.Created? && s'.process.entry == e && s'.process.digest == NextDigest(h, e) && s'.process.cont == cont
  {
    KnowsThat(s, h);
    var f := FreshFile(s.disk);
    s' := Staged(s, h, e, f, cont);
    Starts(s, h, e, f, cont);
    assert if s.process.Submitted? then Register(s, s') else Settle(s, s');
    Goes(o, s, s');
  }

  lemma RegistersOwn(o: State, s: State, h: Hist, st: Store, t: Txid, r: Record) returns (s': State)
    requires Leads(o, s) && Inv(s) && s.process.Submitted? && ReadsAs(s.disk, h) && h.Snoc? && s.store == ActiveIn(st, t, r)
    ensures Leads(o, s') && Inv(s') && s'.process.Executing? && ReadsAs(s'.disk, Snoc(h, RegEntry(t, r)))
    ensures s'.store == ActiveIn(st, t, r.(registration := Some(NextDigest(h, RegEntry(t, r)))))
  {
    var a := StagesOwn(o, s, h, RegEntry(t, r), Forward(RegistrationColumn));
    var b := AppendCompletes(o, a, h);
    s' := Binds(o, b, st, t, r);
  }

  lemma ExecutesAll(o: State, s: State, st: Store, t: Txid, r: Record) returns (s': State)
    requires Leads(o, s) && Inv(s) && s.process.Executing? && s.store == ActiveIn(st, t, r)
    requires r.state == Applying && r.journals == seq(|r.journals|, _ => Pending)
    ensures Leads(o, s') && Inv(s') && s'.process.Executing? && s'.disk == s.disk
    ensures s'.store == ActiveIn(st, t, r.(journals := seq(|r.journals|, _ => Done)))
  {
    var n := |r.journals|;
    UpToEnds(n);
    JournaledTwice(s, [], r.journals);
    ActiveTwice(st, t, r, r.(journals := DoneUpTo(n, n)));
    DoesAll(o, s, n, 0);
    s' := Journaled(s, DoneUpTo(n, n));
  }

  /** The forward executor: applying, every effect, applied, committed. */
  lemma Executes(o: State, s: State, st: Store, t: Txid, r: Record) returns (s': State)
    requires Leads(o, s) && Inv(s) && s.process.Executing? && s.store == ActiveIn(st, t, r)
    requires r.state == Prepared && r.journals == seq(|r.journals|, _ => Pending)
    ensures Leads(o, s') && Inv(s') && s'.process.Deciding? && s'.disk == s.disk
    ensures s'.store == ActiveIn(st, t, r.(state := CommittedState, journals := seq(|r.journals|, _ => Done)))
  {
    var a := AdvancesTo(o, s, st, t, r, Applying);
    var b := ExecutesAll(o, a, st, t, r.(state := Applying));
    s' := Commits(o, b, st, t, r.(state := Applying, journals := seq(|r.journals|, _ => Done)));
  }

  lemma Commits(o: State, s: State, st: Store, t: Txid, r: Record) returns (s': State)
    requires Leads(o, s) && Inv(s) && s.process.Executing? && s.store == ActiveIn(st, t, r) && r.state == Applying
    ensures Leads(o, s') && Inv(s') && s'.process.Deciding? && s'.disk == s.disk
    ensures s'.store == ActiveIn(st, t, r.(state := CommittedState))
  {
    var a := AdvancesTo(o, s, st, t, r, Applied);
    s' := AdvancesTo(o, a, st, t, r.(state := Applied), CommittedState);
  }

  lemma SettlesOwn(o: State, s: State, h: Hist, st: Store, t: Txid, r: Record) returns (s': State)
    requires Leads(o, s) && Inv(s) && s.process.Deciding? && ReadsAs(s.disk, h) && h.Snoc? && s.store == ActiveIn(st, t, r)
    requires r.registration.Some?
    ensures Leads(o, s') && Inv(s') && s'.process.Planning? && ReadsAs(s'.disk, Snoc(h, Settled(t, r.registration.value, Committed)))
    ensures s'.store == ActiveIn(st, t, r.(settlement := Some(NextDigest(h, Settled(t, r.registration.value, Committed)))))
  {
    var a := StagesOwn(o, s, h, Settled(t, r.registration.value, Committed), Forward(SettlementColumn));
    var b := AppendCompletes(o, a, h);
    s' := Binds(o, b, st, t, r);
  }

  // ---- reconciling and detaching ----

  /** What a reconciliation is for. */
  function Purpose(p: Process): After
    requires Reconciling(p)
  {
    match p
    case Derived(_, _, after) => after
    case SurvivorMoved(_, _, after) => after
    case Acting(_, _, after) => after
    case Appending(_, _, _, _, cont) => cont.after
    case Binding(_, _, cont) => cont.after
    case _ => ToPlan
  }

  lemma KeepsPurpose(s: State, s': State)
    requires RecoveryStep(s, s') && Reconciling(s.process) && Reconciling(s'.process) && Remaining(s'.process) < Remaining(s.process)
    ensures Purpose(s'.process) == Purpose(s.process) && QuietStep(s, s') && !s'.process.Derived?
  {
    RecoveryIsQuiet(s, s');
    assert !Fault(s, s');
  }

  /** A reconciliation can be finished, with the chain and the bindings its record calls for. */
  lemma {:induction false} Reconciles(o: State, s: State, h: Hist, next: Option<Entry>) returns (s': State)
    requires Leads(o, s) && InvWith(s, h, next) && Reconciling(s.process) && s.store.active.Some?
    ensures Leads(o, s') && Inv(s') && Reconciled(s'.process) && s'.process.after == Purpose(s.process)
    ensures ReadsAs(s'.disk, GoalHist(s.store, h)) && s'.store == GoalStore(s.store, h)
    decreases Remaining(s.process)
  {
    if Reconciled(s.process) {
      s' := s;
      ViewReads(s.disk, h, next);
      NothingLeftIsGoal(s.store, h);
    } else {
      var m := ReconciliationProgresses(s);
      KeepsPurpose(s, m);
      Then(o, s, m);
      var h', next' := GoalIsStable(s, m, h, next);
      s' := Reconciles(o, m, h', next');
    }
  }

  /** Deriving is possible wherever the process knows the chain. */
  lemma Derives(s: State, h: Hist, next: Option<Entry>, after: After) returns (d: State)
    requires InvWith(s, h, next)
    ensures DeriveFrom(s, d, after) && d.disk == s.disk && d.store == s.store && d.process.Derived? && d.process.after == after
  {
    ViewReads(s.disk, h, next);
    var v := Seen(h, next);
    AgreementIsClean(s.store, v);
    DeriveSucceeds(s.store, v);
    d := s.(process := Derived(Derive(s.store, v).registration, Derive(s.store, v).settlement, after));
    assert Validates(s.disk, v);
  }

  lemma DerivedKnows(s: State, h: Hist)
    requires Inv(s) && s.process.Derived? && ReadsAs(s.disk, h)
    ensures InvWith(s, h, None)
  {
    var h', next :| InvWith(s, h', next);
    ViewReads(s.disk, h', next);
    ReadsAsUnique(s.disk, h, h');
  }

  /** An ended record is settled in the chain, if it is not yet, and detached. */
  lemma Detaches(o: State, s: State, h: Hist) returns (s': State)
    requires Leads(o, s) && InvWith(s, h, None) && s.process.Planning?
    requires ActiveRecord(s.store).Some? && Terminal(ActiveRecord(s.store).value.state)
    ensures Leads(o, s') && Inv(s') && s'.process.Ready?
    ensures ReadsAs(s'.disk, GoalHist(s.store, h)) && s'.store == GoalStore(s.store, h).(active := None)
  {
    var d := Derives(s, h, None, ToDetach);
    assert PlanDetach(s, d);
    assert !Reads(s, d);
    Then(o, s, d);
    StepKeeps(s, d);
    ViewReads(s.disk, h, None);
    DerivedKnows(d, h);
    var e := Reconciles(o, d, h, None);
    s' := Clears(o, e);
  }

  lemma SkipsAreBound(st: Store, h: Hist)
    requires ActionsOk(st, h, Skip, Skip) && AfterOk(st, ToDetach)
    ensures ClearActive(st) == Some(st.(active := None))
  {
  }

  lemma DetachIsClear(s: State)
    requires Inv(s) && Reconciled(s.process) && s.process.after.ToDetach?
    ensures ClearActive(s.store) == Some(s.store.(active := None))
  {
    var h, next :| InvWith(s, h, next);
    SkipsAreBound(s.store, h);
  }

  lemma Clears(o: State, s: State) returns (s': State)
    requires Leads(o, s) && Inv(s) && Reconciled(s.process) && s.process.after.ToDetach?
    ensures Leads(o, s') && Inv(s') && s'.process.Ready? && s'.disk == s.disk && s'.store == s.store.(active := None)
  {
    DetachIsClear(s);
    s' := s.(store := s.store.(active := None), process := Ready);
    ClearIsStep(s, s');
    Goes(o, s, s');
  }

  lemma ClearIsStep(s: State, s': State)
    requires Reconciled(s.process) && s.process.after.ToDetach? && ClearActive(s.store) == Some(s'.store)
    requires s' == s.(store := s'.store, process := Ready)
    ensures Step(s, s')
  {
    assert ActDone(s, s');
  }

  /** One state change of the recovery plan. */
  lemma PlansTo(o: State, s: State, h: Hist, to: TxState) returns (s': State)
    requires Leads(o, s) && InvWith(s, h, None) && s.process.Planning? && !to.Halted?
    requires ActiveRecord(s.store).Some? && RecoveryEdge(ActiveRecord(s.store).value.state, to)
    ensures Leads(o, s') && InvWith(s', h, None) && s'.process.Planning? && s'.disk == s.disk
    ensures s'.store == ActiveIn(s.store, s.store.active.value, s.store.records[s.store.active.value].(state := to))
  {
    var t := s.store.active.value;
    s' := s.(store := SetState(s.store, t, to).value);
    assert Advance(s, s', to, Planning);
    assert PlanState(s, s');
    Goes(o, s, s');
    ViewReads(s.disk, h, None);
    KnowsThat(s', h);
  }

  /** The effects from `i` on undone as far as they were begun. */
  function UndoneFrom(journals: seq<Journal>, i: nat): seq<Journal> {
    seq(|journals|, k requires 0 <= k < |journals| => if k >= i && journals[k] != Pending then Undone else journals[k])
  }

  lemma UndoneOneMore(journals: seq<Journal>, i: nat)
    requires i < |journals|
    ensures UndoneFrom(journals, i + 1)[i] == journals[i]
    ensures UndoneFrom(journals, i) == UndoneFrom(journals, i + 1)[i := if journals[i] == Pending then Pending else Undone]
  {
  }

  lemma PlannerIsLive(s: State)
    requires Inv(s) && s.process.Planning?
    ensures ActiveRecord(s.store).Some? && !IsHalted(s.store) && ActiveRecord(s.store).value.registration.Some?
  {
  }

  lemma UndoIsStep(s: State, i: nat, to: Journal)
    requires s.process.Planning? && ActiveRecord(s.store).Some? && !IsHalted(s.store)
    requires var journals := ActiveRecord(s.store).value.journals;
      i < |journals| && (((journals[i] == Started || journals[i] == Done) && to == UndoStarted) || (journals[i] == UndoStarted && to == Undone))
    ensures Step(s, Journaled(s, ActiveRecord(s.store).value.journals[i := to]))
  {
    var s' := Journaled(s, ActiveRecord(s.store).value.journals[i := to]);
    assert SetJournal(s.store, s.store.active.value, i, to) == Some(s'.store);
    assert (ActiveRecord(s.store).value.journals[i], to) in {(Started, UndoStarted), (Done, UndoStarted), (UndoStarted, Undone)};
    assert MoveJournal(s, s', {(Started, UndoStarted), (Done, UndoStarted), (UndoStarted, Undone)});
    assert PlanJournal(s, s');
  }

  lemma Undoes(o: State, s: State, journals: seq<Journal>, i: nat, to: Journal)
    requires s.process.Planning? && s.store.active.Some? && s.store.active.value in s.store.records
    requires Leads(o, Journaled(s, journals)) && Inv(Journaled(s, journals))
    requires i < |journals| && (((journals[i] == Started || journals[i] == Done) && to == UndoStarted) || (journals[i] == UndoStarted && to == Undone))
    ensures Leads(o, Journaled(s, journals[i := to])) && Inv(Journaled(s, journals[i := to]))
  {
    PlannerIsLive(Journaled(s, journals));
    UndoIsStep(Journaled(s, journals), i, to);
    JournaledTwice(s, journals, journals[i := to]);
    Goes(o, Journaled(s, journals), Journaled(s, journals[i := to]));
  }

  lemma UndoesOne(o: State, s: State, journals: seq<Journal>, i: nat)
    requires s.process.Planning? && s.store.active.Some? && s.store.active.value in s.store.records
    requires i < |journals| && Leads(o, Journaled(s, journals)) && Inv(Journaled(s, journals)) && journals[i] != Pending
    ensures Leads(o, Journaled(s, journals[i := Undone])) && Inv(Journaled(s, journals[i := Undone]))
  {
    if journals[i] == UndoStarted {
      Undoes(o, s, journals, i, Undone);
    } else if journals[i] != Undone {
      Undoes(o, s, journals, i, UndoStarted);
      Undoes(o, s, journals[i := UndoStarted], i, Undone);
      assert journals[i := UndoStarted][i := Undone] == journals[i := Undone];
    } else {
      assert journals[i := Undone] == journals;
    }
  }

  lemma KeepsInv(o: State, s: State)
    requires Inv(o) && Leads(o, s)
    ensures Inv(s)
  {
    var run :| IsPath(run, o, s);
    LeadsKeepsInv(run, o, s);
  }

  lemma UndoesNext(o: State, s: State, journals: seq<Journal>, i: nat)
    requires s.process.Planning? && s.store.active.Some? && s.store.active.value in s.store.records && i < |journals|
    requires Inv(o) && Leads(o, Journaled(s, UndoneFrom(journals, i + 1)))
    ensures Leads(o, Journaled(s, UndoneFrom(journals, i)))
  {
    UndoneOneMore(journals, i);
    if journals[i] == Pending {
      assert UndoneFrom(journals, i) == UndoneFrom(journals, i + 1);
    } else {
      KeepsInv(o, Journaled(s, UndoneFrom(journals, i + 1)));
      UndoesOne(o, s, UndoneFrom(journals, i + 1), i);
    }
  }

  /** Whatever was begun is undone, last effect first. */
  lemma {:induction false} UndoesAll(o: State, s: State, journals: seq<Journal>, i: nat)
    requires s.process.Planning? && s.store.active.Some? && s.store.active.value in s.store.records && i <= |journals|
    requires Inv(o) && Leads(o, Journaled(s, UndoneFrom(journals, i)))
    ensures Leads(o, Journaled(s, UndoneFrom(journals, 0)))
    decreases i
  {
    if i > 0 {
      UndoesNext(o, s, journals, i - 1);
      UndoesAll(o, s, journals, i - 1);
    }
  }

  lemma UndoesEffects(o: State, s: State, h: Hist) returns (s': State)
    requires Leads(o, s) && InvWith(s, h, None) && s.process.Planning? && ActiveRecord(s.store).Some?
    ensures Leads(o, s') && InvWith(s', h, None) && s'.process.Planning? && s'.disk == s.disk
    ensures var t, r := s.store.active.value, ActiveRecord(s.store).value;
      s'.store == ActiveIn(s.store, t, r.(journals := UndoneFrom(r.journals, 0)))
  {
    var journals := ActiveRecord(s.store).value.journals;
    UndoneFromEnd(journals);
    JournaledTwice(s, journals, journals);
    Stays(s);
    UndoesAll(s, s, journals, |journals|);
    s' := Journaled(s, UndoneFrom(journals, 0));
    KeepsInv(s, s');
    Joins(o, s, s');
    ViewReads(s.disk, h, None);
    KnowsThat(s', h);
  }

  lemma UndoneFromEnd(journals: seq<Journal>)
    ensures UndoneFrom(journals, |journals|) == journals
  {
  }

  /** A record that has not ended can be rolled back, with every effect that was begun undone. */
  lemma RollsBack(o: State, s: State, h: Hist) returns (s': State)
    requires Leads(o, s) && InvWith(s, h, None) && s.process.Planning?
    requires ActiveRecord(s.store).Some? && !Terminal(ActiveRecord(s.store).value.state)
    ensures Leads(o, s') && InvWith(s', h, None) && s'.process.Planning? && s'.disk == s.disk
    ensures var t, r := s.store.active.value, ActiveRecord(s.store).value;
      s'.store == ActiveIn(s.store, t, r.(state := RolledBackState, journals := UndoneFrom(r.journals, 0)))
  {
    var t, r := s.store.active.value, ActiveRecord(s.store).value;
    var m := s;
    if !r.state.RollingBack? {
      m := PlansTo(o, s, h, RollingBack);
    } else {
      assert s.store == ActiveIn(s.store, t, r);
    }
    s' := FinishesRollBack(o, m, h);
    ActiveTwice(s.store, t, m.store.records[t], s'.store.records[t]);
  }

  lemma FinishesRollBack(o: State, s: State, h: Hist) returns (s': State)
    requires Leads(o, s) && InvWith(s, h, None) && s.process.Planning?
    requires ActiveRecord(s.store).Some? && ActiveRecord(s.store).value.state == RollingBack
    ensures Leads(o, s') && InvWith(s', h, None) && s'.process.Planning? && s'.disk == s.disk
    ensures var t, r := s.store.active.value, ActiveRecord(s.store).value;
      s'.store == ActiveIn(s.store, t, r.(state := RolledBackState, journals := UndoneFrom(r.journals, 0)))
  {
    var t := s.store.active.value;
    var u := UndoesEffects(o, s, h);
    s' := PlansTo(o, u, h, RolledBackState);
    ActiveTwice(s.store, t, u.store.records[t], s'.store.records[t]);
  }

  // ---- the theorems ----

  /** The record of a transaction that has committed and been settled on `h`. */
  function CommittedRecord(h: Hist, t: Txid, body: string, fulfills: Option<Digest>, effects: nat): Record {
    var reg := NextDigest(h, Registered(t, body, fulfills));
    var settle := NextDigest(Snoc(h, Registered(t, body, fulfills)), Settled(t, reg, Committed));
    Record(body, fulfills, CommittedState, seq(effects, _ => Done), None, Some(reg), Some(settle), false)
  }

  /** Nothing is left to do for a record bound to both of its entries. */
  lemma CommittedIsGoal(st: Store, h: Hist, t: Txid, r: Record, v: Hist)
    requires Agrees(ActiveIn(st, t, r), v) && v == WithTransaction(h, RegEntry(t, r), Committed)
    requires r.state == CommittedState && r.settlement.Some?
    ensures GoalHist(ActiveIn(st, t, r), v) == v && GoalStore(ActiveIn(st, t, r), v) == ActiveIn(st, t, r)
  {
    NothingLeftIsGoal(ActiveIn(st, t, r), v);
  }

  /** An idle engine on a chain that has begun can carry any admissible transaction through: its registration
      and its settlement become the last two entries, its record ends committed with every effect done and
      both digests bound, and the engine is idle again.  */
  lemma SubmissionCanCommit(s: State, h: Hist, t: Txid, body: string, fulfills: Option<Digest>, effects: nat) returns (s': State)
    requires Inv(s) && s.process.Ready? && ReadsAs(s.disk, h) && h.Snoc? && t !in s.store.records && Gate(h, fulfills)
    ensures Leads(s, s') && Inv(s') && s'.process.Ready?
    ensures ReadsAs(s'.disk, WithTransaction(h, Registered(t, body, fulfills), Committed))
    ensures s'.store == Store(s.store.records[t := CommittedRecord(h, t, body, fulfills, effects)], None)
  {
    var st, e := s.store, Registered(t, body, fulfills);
    var r0 := Fresh(body, fulfills, effects);
    var a := Submits(s, h, t, body, fulfills, effects);
    var b := RegistersOwn(s, a, h, st, t, r0);
    var r1 := r0.(registration := Some(NextDigest(h, e)));
    var c := Executes(s, b, st, t, r1);
    var r2 := r1.(state := CommittedState, journals := seq(effects, _ => Done));
    var d := SettlesOwn(s, c, Snoc(h, e), st, t, r2);
    var r3 := CommittedRecord(h, t, body, fulfills, effects);
    assert d.store == ActiveIn(st, t, r3);
    var v := WithTransaction(h, e, Committed);
    KnowsThat(d, v);
    CommittedIsGoal(st, h, t, r3, v);
    s' := Detaches(s, d, v);
  }

  /** The record a transaction ends with when recovery brings it to rest: committed if it was, and rolled back
      with every effect it had begun undone if not.  */
  predicate CameToRest(r: Record, r': Record) {
    && r'.state == (if r.state == CommittedState then CommittedState else RolledBackState)
    && r'.body == r.body && r'.fulfills == r.fulfills && !r'.assemblyHalt
    && r'.registration.Some? && r'.settlement.Some? && |r'.journals| == |r.journals|
    && forall i :: 0 <= i < |r.journals| ==>
      r'.journals[i] == if Terminal(r.state) || r.journals[i] == Pending then r.journals[i] else Undone
  }

  /** The goal of an ended record. */
  lemma EndedGoal(st: Store, h: Hist, t: Txid, r: Record)
    requires Agrees(st, h) && st.active == Some(t) && t in st.records && st.records[t] == r && Terminal(r.state) && r.registration.Some?
    ensures var r' := GoalStore(st, h).records[t];
      && GoalStore(st, h) == ActiveIn(st, t, r') && r' == r.(settlement := r'.settlement) && r'.settlement.Some?
    ensures GoalHist(st, h).Snoc?
    ensures GoalHist(st, h).last == Settled(t, r.registration.value, if r.state == CommittedState then Committed else RolledBack)
  {
    assert r.registration == Some(NextDigest(BaseOf(st, h), RegEntry(t, r)));
  }

  /** `s'` is at rest, with the active record of `st` ended in it and settled at the tip of `h`. */
  ghost predicate AtRest(st: Store, s': State, h: Hist) {
    && s'.process.Ready? && s'.store.active.None? && ReadsAs(s'.disk, h) && h.Snoc?
    && st.active.Some? && st.active.value in st.records && s'.store.records.Keys == st.records.Keys
    && var t := st.active.value;
    && (forall u :: u in st.records && u != t ==> s'.store.records[u] == st.records[u])
    && CameToRest(st.records[t], s'.store.records[t])
    && h.last == Settled(t, s'.store.records[t].registration.value, if st.records[t].state == CommittedState then Committed else RolledBack)
  }

  lemma EndedComesToRest(o: State, s: State, v: Hist) returns (s': State, h: Hist)
    requires Leads(o, s) && InvWith(s, v, None) && s.process.Planning?
    requires ActiveRecord(s.store).Some? && Terminal(ActiveRecord(s.store).value.state)
    ensures Leads(o, s') && Inv(s') && AtRest(s.store, s', h)
  {
    EndedGoal(s.store, v, s.store.active.value, s.store.records[s.store.active.value]);
    s' := Detaches(o, s, v);
    h := GoalHist(s.store, v);
  }

  lemma RolledBackAtRest(st: Store, t: Txid, r: Record, s': State, h: Hist)
    requires st.active == Some(t) && t in st.records && st.records[t] == r && !Terminal(r.state)
    requires AtRest(ActiveIn(st, t, r.(state := RolledBackState, journals := UndoneFrom(r.journals, 0))), s', h)
    ensures AtRest(st, s', h)
  {
  }

  /** A plan can be carried to the end of its record. */
  lemma PlanComesToRest(o: State, s: State) returns (s': State, h: Hist)
    requires Leads(o, s) && Inv(s) && s.process.Planning?
    ensures Leads(o, s') && Inv(s') && AtRest(s.store, s', h)
  {
    var v := Knows(s);
    if Terminal(ActiveRecord(s.store).value.state) {
      s', h := EndedComesToRest(o, s, v);
    } else {
      var m := RollsBack(o, s, v);
      s', h := EndedComesToRest(o, m, v);
      RolledBackAtRest(s.store, s.store.active.value, ActiveRecord(s.store).value, s', h);
    }
  }

  lemma IdleProgresses(o: State, s: State) returns (m: State)
    requires Leads(o, s) && Inv(s) && Reconciling(s.process) && !Reconciled(s.process) && s.store.active.None?
    ensures Leads(o, m) && Inv(m) && Reconciling(m.process) && Remaining(m.process) < Remaining(s.process)
    ensures Purpose(m.process) == Purpose(s.process) && m.store == s.store
  {
    m := ReconciliationProgresses(s);
    KeepsPurpose(s, m);
    Then(o, s, m);
    StepKeeps(s, m);
    KeepsIdleStore(s, m);
  }

  lemma KeepsIdleStore(s: State, s': State)
    requires RecoveryStep(s, s') && s.store.active.None?
    ensures s'.store == s.store
  {
  }

  /** With nothing active only the staging leaf is looked after. */
  lemma {:induction false} TidiesUp(o: State, s: State) returns (s': State)
    requires Leads(o, s) && Inv(s) && Reconciling(s.process) && s.store.active.None?
    ensures Leads(o, s') && Inv(s') && Reconciled(s'.process) && s'.process.after == Purpose(s.process) && s'.store == s.store
    decreases Remaining(s.process)
  {
    if Reconciled(s.process) {
      s' := s;
    } else {
      var m := IdleProgresses(o, s);
      s' := TidiesUp(o, m);
    }
  }

  /** Recovery, entered in a quiet state, leads to rest or to a plan. */
  lemma EntryComesThrough(s: State, d: State, h: Hist, next: Option<Entry>) returns (s': State)
    requires InvWith(s, h, next) && Reads(s, d) && Quiet(s)
    ensures Leads(s, s') && Inv(s') && s'.process == if s.store.active.None? then Ready else Planning
    ensures s'.store == if s.store.active.None? then s.store else GoalStore(s.store, h)
  {
    Stays(s);
    assert QuietStep(s, d);
    Then(s, s, d);
    StepKeeps(s, d);
    assert next.None?;
    ViewReads(s.disk, h, next);
    DerivedKnows(d, h);
    var e;
    if s.store.active.Some? {
      e := Reconciles(s, d, h, None);
    } else {
      e := TidiesUp(s, d);
    }
    s' := e.(process := if e.store.active.None? then Ready else Planning);
    assert ActDone(e, s');
    Goes(s, e, s');
  }

  /** Reconciling an active record sets its bindings and nothing else. */
  lemma GoalKeepsRest(st: Store, h: Hist)
    requires Agrees(st, h) && st.active.Some?
    ensures var t := st.active.value;
      && GoalStore(st, h).active == st.active && GoalStore(st, h).records.Keys == st.records.Keys
      && (forall u :: u in st.records && u != t ==> GoalStore(st, h).records[u] == st.records[u])
      && var r, r' := st.records[t], GoalStore(st, h).records[t];
      && r' == r.(registration := r'.registration, settlement := r'.settlement)
  {
  }

  lemma ReconciledAtRest(st: Store, v: Hist, s': State, h: Hist)
    requires Agrees(st, v) && st.active.Some? && AtRest(GoalStore(st, v), s', h)
    ensures AtRest(st, s', h)
  {
    GoalKeepsRest(st, v);
  }

  /** Wherever recovery may be entered in a quiet state, by a command after a crash or by the failure handler,
      a run leads from there to an idle engine: nothing is active, the record that was has ended, committed
      if it was committed before and rolled back if not, is bound twice, and the chain ends with exactly its
      settlement.  */
  lemma RecoveryComesToRest(s: State, d: State) returns (s': State, h: Hist)
    requires Inv(s) && Reads(s, d) && Quiet(s)
    ensures Leads(s, s') && Inv(s') && s'.process.Ready? && s'.store.active.None? && ReadsAs(s'.disk, h)
    ensures if s.store.active.None? then s'.store == s.store else AtRest(s.store, s', h)
  {
    var v, next :| InvWith(s, v, next);
    var m := EntryComesThrough(s, d, v, next);
    if s.store.active.None? {
      s' := m;
      h := Knows(m);
    } else {
      s', h := PlanComesToRest(s, m);
      ReconciledAtRest(s.store, v, s', h);
    }
  }

  /** So every crash of every run, short of a halt, can be recovered from. */
  lemma CrashesComeToRest(run: seq<State>, i: nat)
    requires IsRun(run) && i < |run| && run[i].process.Down? && !IsHalted(run[i].store) && Quiet(run[i])
    ensures exists s' :: Leads(run[i], s') && s'.process.Ready? && s'.store.active.None? && s'.store.records.Keys == run[i].store.records.Keys
  {
    RunsKeepInvariant(run, i);
    RecoveryAlwaysStarts(run, i);
    var d :| Begin(run[i], d);
    var s', h := RecoveryComesToRest(run[i], d);
  }

  /** The failure handler takes over from the forward executor anywhere between the submission and the commit
      decision, and from there too a run leads to rest.  */
  lemma FailuresComeToRest(s: State) returns (s': State, h: Hist)
    requires Inv(s) && Quiet(s)
    requires
      || s.process == Submitted || s.process == Executing
      || (s.process.Appending? && s.process.cont == Forward(RegistrationColumn))
      || (s.process.Binding? && s.process.cont == Forward(RegistrationColumn))
    ensures Leads(s, s') && Inv(s') && AtRest(s.store, s', h)
  {
    var v, next :| InvWith(s, v, next);
    var d := Derives(s, v, next, ToPlan);
    assert RollBack(s, d);
    s', h := RecoveryComesToRest(s, d);
  }

  lemma HaltIsStep(s: State, t: Txid, r: Record)
    requires s.process.Planning? && s.store.active == Some(t) && t in s.store.records && s.store.records[t] == r && !IsHalted(s.store)
    requires r.registration.Some?
    ensures Step(s, State(s.disk, ActiveIn(s.store, t, r.(assemblyHalt := true)), Down))
    ensures r.state != RolledBackState ==> Step(s, State(s.disk, ActiveIn(s.store, t, r.(state := Halted, preHalt := Some(r.state))), Down))
  {
    assert PlanAssemblyHalt(s, State(s.disk, ActiveIn(s.store, t, r.(assemblyHalt := true)), Down));
    if r.state != RolledBackState {
      var s' := State(s.disk, ActiveIn(s.store, t, r.(state := Halted, preHalt := Some(r.state))), Down);
      assert Advance(s, s', Halted, Down);
      assert PlanState(s, s');
    }
  }

  /** A plan may instead halt its record, remembering the state it leaves, unless that is a rollback, or
      freeze it as it is; either ends the process.  */
  lemma PlansMayHalt(s: State)
    requires Inv(s) && s.process.Planning?
    ensures ActiveRecord(s.store).Some?
    ensures var t, r := s.store.active.value, ActiveRecord(s.store).value;
      && Step(s, State(s.disk, ActiveIn(s.store, t, r.(assemblyHalt := true)), Down))
      && (r.state != RolledBackState ==> Step(s, State(s.disk, ActiveIn(s.store, t, r.(state := Halted, preHalt := Some(r.state))), Down)))
  {
    PlannerIsLive(s);
    HaltIsStep(s, s.store.active.value, ActiveRecord(s.store).value);
  }
}
