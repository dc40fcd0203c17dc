/** What the invariant means for whole runs, crashes included. */
module ProtocolTheorems {
  import opened ChainModel
  import opened ChainRules
  import opened ChainDisk
  import opened RecordStore
  import opened Agreement
  import opened Protocol
  import opened ProtocolSafety

  // ---- safety over runs ----

  lemma {:induction false} RunsKeepInvariant(run: seq<State>, i: nat)
    requires IsRun(run) && i < |run|
    ensures Inv(run[i])
  {
    if i == 0 {
      assert InvWith(run[0], Empty, None);
    } else {
      RunsKeepInvariant(run, i - 1);
      StepKeeps(run[i - 1], run[i]);
    }
  }

  /** A history every validation pass accepts, with each transaction registered and settled at most
      once and nothing pending but the active transaction.  */
  ghost predicate SoundFor(h: Hist, st: Store) {
    && Rooted(h) && Clean(h)
    && (forall t :: |Registrations(h, t)| <= 1 && |Settlements(h, t)| <= 1)
    && PendingTxids(h) <= (if st.active.Some? then {st.active.value} else {})
  }

  /** Every binding in the store resolves in the history, and every record that is no longer active is
      terminal, unhalted and bound to both of its entries.  */
  ghost predicate BoundIn(st: Store, h: Hist) {
    && (forall t :: t in st.records && st.records[t].registration.Some? ==>
          Find(h, st.records[t].registration.value) == Some(RegEntry(t, st.records[t])))
    && (forall t :: t in st.records && st.records[t].settlement.Some? ==>
          && BoundOutcome(st.records[t]).Some? && st.records[t].registration.Some?
          && Find(h, st.records[t].settlement.value)
             == Some(Settled(t, st.records[t].registration.value, BoundOutcome(st.records[t]).value)))
    && (forall t :: t in st.records && st.active != Some(t) ==> Detachable(st.records[t]))
  }

  /** Committed, or halted from there. */
  predicate EndedCommitted(r: Record) {
    r.state == CommittedState || (r.state == Halted && r.preHalt == Some(CommittedState))
  }

  /** An entry of a transaction says what the transaction's record says: the submitted fields, or the
      registration and, as outcome, a commit exactly of a record that is committed or was halted from there
      and a rollback exactly of one that is rolled back.  */
  ghost predicate EntryTells(st: Store, e: Entry)
    requires e.Registered? || e.Settled?
  {
    && e.txid in st.records
    && var r := st.records[e.txid];
    && (e.Registered? ==> e.body == r.body && e.fulfills == r.fulfills)
    && (e.Settled? ==>
          && r.registration == Some(e.registration)
          && (e.outcome == Committed <==> EndedCommitted(r))
          && (e.outcome == RolledBack <==> r.state == RolledBackState))
  }

  ghost predicate EntriesTell(st: Store, h: Hist) {
    forall g :: Find(h, g).Some? && (Find(h, g).value.Registered? || Find(h, g).value.Settled?) ==> EntryTells(st, Find(h, g).value)
  }

  /** The intents the history counts as fulfilled are those of the settled records that committed. */
  ghost predicate FulfilledTells(st: Store, h: Hist) {
    forall d :: d in Fulfilled(h) <==>
      exists t :: t in st.records && t in SettledTxids(h) && st.records[t].fulfills == Some(d) && EndedCommitted(st.records[t])
  }

  /** What an entry of the base says was kept by the record that is no longer active. */
  lemma BaseEntriesTell(st: Store, h: Hist, g: Digest)
    requires Agrees(st, h) && Find(BaseOf(st, h), g).Some?
    ensures var base, e := BaseOf(st, h), Find(BaseOf(st, h), g).value;
      e.Registered? || e.Settled? ==>
        && e.txid in st.records && Retired(e.txid, st.records[e.txid], base)
        && Some(e) == if e.Registered? then Find(base, st.records[e.txid].registration.value) else Find(base, st.records[e.txid].settlement.value)
  {
    var base := BaseOf(st, h);
    var e := Find(base, g).value;
    if e.Registered? || e.Settled? {
      ListedAreFound(base, e.txid, g);
      AtMostOnce(base, e.txid);
      assert e.txid in RegisteredTxids(base);
      var r := st.records[e.txid];
      assert Retired(e.txid, r, base);
      ListedAreFound(base, e.txid, if e.Registered? then r.registration.value else r.settlement.value);
    }
  }

  lemma AgreementTells(st: Store, h: Hist)
    requires Agrees(st, h)
    ensures EntriesTell(st, h)
  {
    var base := BaseOf(st, h);
    forall g | Find(h, g).Some? && (Find(h, g).value.Registered? || Find(h, g).value.Settled?)
      ensures EntryTells(st, Find(h, g).value)
    {
      if Find(base, g).Some? {
        BaseEntriesTell(st, h, g);
        if h != base {
          FindExtends(base, if h.init == base then h.last else h.init.last, g);
          if h.init != base {
            FindExtends(h.init, h.last, g);
          }
        }
      }
    }
  }

  lemma AgreementTellsFulfilled(st: Store, h: Hist)
    requires Agrees(st, h)
    ensures FulfilledTells(st, h)
  {
    AgreementIsClean(st, h);
    AgreementTells(st, h);
    forall d ensures d in Fulfilled(h) <==>
      exists t :: t in st.records && t in SettledTxids(h) && st.records[t].fulfills == Some(d) && EndedCommitted(st.records[t])
    {
      FulfilledAreCommitted(h, d);
      if d in Fulfilled(h) {
        var g :| CommitsFulfilling(h, g, d);
        var t := Find(h, g).value.txid;
        SettlementNamesRegistration(h, g);
        ListedAreFound(h, t, g);
        AtMostOnce(h, t);
        assert t in SettledTxids(h);
      }
      if exists t :: t in st.records && t in SettledTxids(h) && st.records[t].fulfills == Some(d) && EndedCommitted(st.records[t]) {
        var t :| t in st.records && t in SettledTxids(h) && st.records[t].fulfills == Some(d) && EndedCommitted(st.records[t]);
        AtMostOnce(h, t);
        var g := Settlements(h, t)[0];
        ListedAreFound(h, t, g);
        SettlementNamesRegistration(h, g);
        assert CommitsFulfilling(h, g, d);
      }
    }
  }

  lemma AgreementIsSound(st: Store, h: Hist)
    requires Agrees(st, h) && Rooted(h)
    ensures SoundFor(h, st) && BoundIn(st, h) && EntriesTell(st, h) && FulfilledTells(st, h)
  {
    AgreementIsClean(st, h);
    AgreementTells(st, h);
    AgreementTellsFulfilled(st, h);
    forall t ensures |Registrations(h, t)| <= 1 && |Settlements(h, t)| <= 1 {
      AtMostOnce(h, t);
    }
    var base := BaseOf(st, h);
    forall t | t in st.records
      ensures st.records[t].registration.Some? ==>
        Find(h, st.records[t].registration.value) == Some(RegEntry(t, st.records[t]))
      ensures st.records[t].settlement.Some? ==>
        && BoundOutcome(st.records[t]).Some? && st.records[t].registration.Some?
        && Find(h, st.records[t].settlement.value)
           == Some(Settled(t, st.records[t].registration.value, BoundOutcome(st.records[t]).value))
    {
      var r := st.records[t];
      if st.active == Some(t) {
        ActiveBindingsResolve(st, h);
      } else if st.active.Some? {
        RetiredAbove(t, r, st.active.value, st.records[st.active.value], base, h);
      }
    }
  }

  lemma ActiveBindingsResolve(st: Store, h: Hist)
    requires Agrees(st, h) && st.active.Some?
    ensures var t, r := st.active.value, st.records[st.active.value];
      && (r.registration.Some? ==> Find(h, r.registration.value) == Some(RegEntry(t, r)))
      && (r.settlement.Some? ==>
            && BoundOutcome(r).Some? && r.registration.Some?
            && Find(h, r.settlement.value) == Some(Settled(t, r.registration.value, BoundOutcome(r).value)))
  {
    var t, r := st.active.value, st.records[st.active.value];
    var base := BaseOf(st, h);
    if r.registration.Some? {
      assert Find(WithReg(t, r, base), r.registration.value) == Some(RegEntry(t, r));
      if h != WithReg(t, r, base) {
        FindExtends(WithReg(t, r, base), h.last, r.registration.value);
      }
    }
  }

  lemma RetiredAbove(u: Txid, ru: Record, t: Txid, r: Record, base: Hist, h: Hist)
    requires Retired(u, ru, base) && Shape(t, r, base, h)
    ensures Retired(u, ru, h)
  {
    if h != base {
      RetiredExtends(u, ru, base, RegEntry(t, r));
      if h != WithReg(t, r, base) {
        RetiredExtends(u, ru, WithReg(t, r, base), h.last);
      }
    }
  }

  /** The directory reads as a sound history in which the store's bindings resolve. */
  ghost predicate Sound(d: Disk, st: Store) {
    exists h :: ReadsAs(d, h) && SoundFor(h, st) && BoundIn(st, h) && EntriesTell(st, h) && FulfilledTells(st, h)
  }

  lemma InvIsSound(s: State, d: Disk)
    requires Inv(s) && (d == s.disk || PowerLoss(s.disk, d))
    ensures Sound(d, s.store)
  {
    var h, next :| InvWith(s, h, next);
    if d == s.disk {
      ViewReads(d, h, next);
      AgreementIsSound(s.store, Seen(h, next));
    } else {
      var h' := PowerLossOutcome(s.disk, h, next, d);
      AgreementIsSound(s.store, h');
    }
  }

  /** In every state of every run, what a process reads is sound, and so is what is left by a power loss
      that keeps any of the unflushed operations.  */
  lemma AlwaysSound(run: seq<State>, i: nat, d: Disk)
    requires IsRun(run) && i < |run|
    requires d == run[i].disk || PowerLoss(run[i].disk, d)
    ensures Sound(d, run[i].store)
  {
    RunsKeepInvariant(run, i);
    InvIsSound(run[i], d);
  }

  /** In every state of every run, halted or not and whatever is running, the directory validates and the
      derivation succeeds with at most one append.  */
  lemma DerivationAlwaysSucceeds(run: seq<State>, i: nat)
    requires IsRun(run) && i < |run|
    ensures exists h ::
      && Validates(run[i].disk, h)
      && (run[i].store.active.Some? ==> !h.Empty?)
      && Derive(run[i].store, h).Repairs?
      && (Derive(run[i].store, h).registration.Skip? || Derive(run[i].store, h).settlement.Skip?)
  {
    RunsKeepInvariant(run, i);
    var s := run[i];
    var h, next :| InvWith(s, h, next);
    ViewReads(s.disk, h, next);
    AgreementIsClean(s.store, Seen(h, next));
    DeriveSucceeds(s.store, Seen(h, next));
  }

  /** So recovery is never refused for a record that is not halted. */
  lemma RecoveryAlwaysStarts(run: seq<State>, i: nat)
    requires IsRun(run) && i < |run|
    requires run[i].process.Down? && !IsHalted(run[i].store)
    ensures exists s' :: Begin(run[i], s') && !(s'.process.registration.Append? && s'.process.settlement.Append?)
  {
    DerivationAlwaysSucceeds(run, i);
    var s := run[i];
    var h :| Validates(s.disk, h) && (s.store.active.Some? ==> !h.Empty?) && Derive(s.store, h).Repairs?
      && (Derive(s.store, h).registration.Skip? || Derive(s.store, h).settlement.Skip?);
    var s' := s.(process := Derived(Derive(s.store, h).registration, Derive(s.store, h).settlement, ToPlan));
    assert DeriveFrom(s, s', ToPlan);
    assert Begin(s, s');
  }

  // ---- the record machine, under the triggers alone ----

  /** Leaving PREPARED needs a registration, a settlement needs a registration, a prepared record has
      started nothing, and only bound, unhalted, terminal records are not active.  */
  ghost predicate RecordsOk(st: Store) {
    && (st.active.Some? ==> st.active.value in st.records)
    && forall t :: t in st.records ==>
      var r := st.records[t];
      && RowOk(r)
      && (st.active != Some(t) ==> Detachable(r))
  }

  predicate RowOk(r: Record) {
    && (r.registration.None? ==> r.state == Prepared && r.settlement.None?)
    && (r.state == Prepared ==> forall i :: 0 <= i < |r.journals| ==> r.journals[i] == Pending)
  }

  function JournalRank(j: Journal): nat {
    match j
    case Pending => 0
    case Started => 1
    case Done => 2
    case UndoStarted => 3
    case Undone => 4
  }

  /** Journals only advance, a commit is never undone and a rollback never left, a halt is final, and
      nothing is prepared again.  */
  predicate Advances(r: Record, r': Record)
    requires |r'.journals| == |r.journals|
  {
    && (EndedCommitted(r) ==> EndedCommitted(r'))
    && (r.state == RolledBackState ==> r'.state == RolledBackState)
    && (r.state == Halted ==> r'.state == Halted && r'.preHalt == r.preHalt)
    && (r'.state == Prepared ==> r.state == Prepared)
    && forall i :: 0 <= i < |r.journals| ==> JournalRank(r.journals[i]) <= JournalRank(r'.journals[i])
  }

  /** What every update keeps of a record. */
  predicate Preserved(r: Record, r': Record) {
    && r'.body == r.body && r'.fulfills == r.fulfills && |r'.journals| == |r.journals|
    && (r.registration.Some? ==> r'.registration == r.registration)
    && (r.settlement.Some? ==> r'.settlement == r.settlement)
    && (r.assemblyHalt ==> r' == r)
    && Advances(r, r')
  }

  ghost predicate Guarded(st: Store, st': Store) {
    && RecordsOk(st')
    && forall t :: t in st.records ==> t in st'.records && Preserved(st.records[t], st'.records[t])
  }

  lemma PutIsGuarded(st: Store, r: Record)
    requires RecordsOk(st) && st.active.Some?
    requires Preserved(st.records[st.active.value], r)
    requires RowOk(r)
    ensures Guarded(st, Put(st, st.active.value, r))
  {
  }

  /** Every step at all, quiet or not, keeps the record rules; bindings never change once set, the
      submitted part of a record never changes, and an assembly halt freezes the record whole.  */
  lemma RecordsAreGuarded(s: State, s': State)
    requires Step(s, s') && RecordsOk(s.store)
    ensures Guarded(s.store, s'.store)
  {
    if s'.store != s.store && s.store.active.Some? && s'.store.active.Some? {
      assert UpdatesActive(s, s') by {
        StoreChangesAreUpdates(s, s');
      }
      var r :| s'.store == Put(s.store, s.store.active.value, r) && Preserved(s.store.records[s.store.active.value], r) && RowOk(r);
      PutIsGuarded(s.store, r);
    } else if s'.store != s.store {
      StoreSwitches(s, s');
    }
  }

  ghost predicate UpdatesActive(s: State, s': State)
    requires s.store.active.Some? && s.store.active.value in s.store.records
  {
    var t := s.store.active.value;
    exists r ::
      s'.store == Put(s.store, t, r) && Preserved(s.store.records[t], r) && RowOk(r)
  }

  /** The steps that leave the store alone. */
  lemma StoreKeepers(s: State, s': State)
    ensures Fault(s, s') || Reads(s, s') || RepairStep(s, s') || AppendStep(s, s') ==> s'.store == s.store
  {
  }

  /** A state change along the phase order or a recovery edge. */
  lemma StateMoves(st: Store, t: Txid, to: TxState)
    requires t in st.records && RowOk(st.records[t]) && SetState(st, t, to).Some?
    requires var from := st.records[t].state;
      || (from == Prepared && to == Applying) || (from == Applying && to == Applied) || (from == Applied && to == CommittedState)
      || RecoveryEdge(from, to)
    ensures var r := SetState(st, t, to).value.records[t];
      SetState(st, t, to).value == Put(st, t, r) && Preserved(st.records[t], r) && RowOk(r)
  {
    ProgressMoves(st.records[t], to);
  }

  lemma ProgressMoves(r: Record, to: TxState)
    requires RowOk(r) && !r.assemblyHalt && (r.state == Prepared ==> r.registration != None)
    requires
      || (r.state == Prepared && to == Applying) || (r.state == Applying && to == Applied) || (r.state == Applied && to == CommittedState)
      || RecoveryEdge(r.state, to)
    ensures var r' := r.(state := to, preHalt := if to == Halted then Some(r.state) else r.preHalt); Preserved(r, r') && RowOk(r')
  {
  }

  /** A journal change along an edge that advances it. */
  lemma JournalMoves(st: Store, t: Txid, i: nat, to: Journal)
    requires t in st.records && i < |st.records[t].journals| && RowOk(st.records[t]) && SetJournal(st, t, i, to).Some?
    requires JournalRank(st.records[t].journals[i]) < JournalRank(to) && (st.records[t].journals[i] == Pending ==> to == Started)
    ensures var r := SetJournal(st, t, i, to).value.records[t];
      SetJournal(st, t, i, to).value == Put(st, t, r) && Preserved(st.records[t], r) && RowOk(r)
  {
  }

  lemma MoveJournalUpdates(s: State, s': State, edges: set<(Journal, Journal)>)
    requires MoveJournal(s, s', edges) && RecordsOk(s.store)
    requires forall e :: e in edges ==> JournalRank(e.0) < JournalRank(e.1) && (e.0 == Pending ==> e.1 == Started)
    ensures s.store.active.Some? && UpdatesActive(s, s')
  {
    var i: nat, to :|
      && i < |ActiveRecord(s.store).value.journals|
      && (ActiveRecord(s.store).value.journals[i], to) in edges
      && SetJournal(s.store, s.store.active.value, i, to).Some?
      && s' == s.(store := SetJournal(s.store, s.store.active.value, i, to).value);
    JournalMoves(s.store, s.store.active.value, i, to);
  }

  lemma StateStepUpdates(s: State, s': State)
    requires (ExecuteState(s, s') || PlanState(s, s')) && RecordsOk(s.store)
    ensures s.store.active.Some? && UpdatesActive(s, s')
  {
    StateMoves(s.store, s.store.active.value, s'.store.records[s.store.active.value].state);
  }

  /** A state, journal or halt change replaces the active record by one that keeps the rules. */
  lemma RecordStepUpdates(s: State, s': State)
    requires RecordStep(s, s') && RecordsOk(s.store)
    ensures s.store.active.Some? && UpdatesActive(s, s')
  {
    if ExecuteState(s, s') || PlanState(s, s') {
      StateStepUpdates(s, s');
    } else if ExecuteJournal(s, s') {
      MoveJournalUpdates(s, s', {(Pending, Started), (Started, Done)});
    } else if PlanJournal(s, s') {
      MoveJournalUpdates(s, s', {(Started, UndoStarted), (Done, UndoStarted), (UndoStarted, Undone)});
    } else {
      assert s'.store == Put(s.store, s.store.active.value, s'.store.records[s.store.active.value]);
    }
  }

  lemma BindUpdates(s: State, s': State)
    requires Bind(s, s') && RecordsOk(s.store)
    ensures UpdatesActive(s, s')
  {
    var t := s.store.active.value;
    assert s'.store == Put(s.store, t, s'.store.records[t]);
  }

  lemma CommandsSwitch(s: State, s': State)
    requires CommandStep(s, s') && s'.store != s.store
    ensures Submit(s, s') && s.store.active.None?
  {
  }

  lemma StoreChangesAreUpdates(s: State, s': State)
    requires Step(s, s') && RecordsOk(s.store)
    requires s'.store != s.store && s.store.active.Some? && s'.store.active.Some?
    ensures UpdatesActive(s, s')
  {
    StoreKeepers(s, s');
    if Bind(s, s') {
      BindUpdates(s, s');
    } else if RecordStep(s, s') {
      RecordStepUpdates(s, s');
    } else if CommandStep(s, s') {
      CommandsSwitch(s, s');
    }
  }

  lemma SubmitIsGuarded(s: State, s': State)
    requires Submit(s, s') && RecordsOk(s.store)
    ensures Guarded(s.store, s'.store)
  {
  }

  lemma DetachIsGuarded(s: State, s': State)
    requires ActDone(s, s') && RecordsOk(s.store)
    ensures Guarded(s.store, s'.store)
  {
  }

  lemma StoreSwitches(s: State, s': State)
    requires Step(s, s') && RecordsOk(s.store)
    requires s'.store != s.store && !(s.store.active.Some? && s'.store.active.Some?)
    ensures Guarded(s.store, s'.store)
  {
    StoreKeepers(s, s');
    if CommandStep(s, s') {
      CommandsSwitch(s, s');
      SubmitIsGuarded(s, s');
    } else if ActDone(s, s') {
      DetachIsGuarded(s, s');
    } else if RecordStep(s, s') {
      RecordStepUpdates(s, s');
    } else if Bind(s, s') {
      BindUpdates(s, s');
    }
  }

  /** Over any run of steps whatever, what one state has bound every later state has bound. */
  lemma {:induction false} BindingsAreForever(run: seq<State>)
    requires |run| > 0 && AreSteps(run) && RecordsOk(run[0].store)
    ensures Guarded(run[0].store, run[|run| - 1].store)
  {
    if |run| > 1 {
      var front := run[..|run| - 1];
      BindingsAreForever(front);
      RecordsAreGuarded(run[|run| - 2], run[|run| - 1]);
      GuardedTransitive(run[0].store, run[|run| - 2].store, run[|run| - 1].store);
    }
  }

  ghost predicate AreSteps(run: seq<State>) {
    forall k :: 0 <= k < |run| - 1 ==> Step(run[k], run[k + 1])
  }

  lemma GuardedTransitive(a: Store, b: Store, c: Store)
    requires Guarded(a, b) && Guarded(b, c)
    ensures Guarded(a, c)
  {
    forall t | t in a.records
      ensures t in c.records && Preserved(a.records[t], c.records[t])
    {
      assert Preserved(a.records[t], b.records[t]);
      assert Preserved(b.records[t], c.records[t]);
    }
  }
}
