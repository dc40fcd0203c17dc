/** The inductive invariant of the protocol, kept by every quiet step. */
module ProtocolSafety {
  import opened ChainModel
  import opened ChainRules
  import opened ChainDisk
  import opened RecordStore
  import opened Agreement
  import opened Protocol

  /** The active record, neither halted nor frozen. */
  predicate Live(st: Store) {
    ActiveRecord(st).Some? && !IsHalted(st)
  }

  /** A detach is under way only for a registered terminal record. */
  predicate AfterOk(st: Store, after: After) {
    after.ToDetach? ==>
      Live(st) && Terminal(ActiveRecord(st).value.state) && ActiveRecord(st).value.registration.Some?
  }

  /** Entry `e`, placed on `h`, is the one the continuation will bind. */
  predicate ContOk(st: Store, h: Hist, e: Entry, cont: Cont) {
    if cont.Plain? then st.active.None? else
    && Live(st)
    && var t, r, base := st.active.value, ActiveRecord(st).value, BaseOf(st, h);
    && (cont.Repair? ==> cont.settlement.Skip? && AfterOk(st, cont.after))
    && match cont.column
       case RegistrationColumn => r.registration.None? && h == base && e == RegEntry(t, r)
       case SettlementColumn =>
         && r.registration.Some? && r.settlement.None? && OutcomeOf(r).Some?
         && (cont.Forward? ==> r.state.CommittedState?)
         && h == WithReg(t, r, base) && e == SettleEntry(t, r, base, OutcomeOf(r).value)
  }

  predicate StageOk(d: Disk, g: Digest, f: nat, point: Point) {
    && Stage in View(d) && View(d)[Stage] == f && f in d.files
    && (point.Filled? ==> d.files[f].bytes == g.content)
    && (point.Flushed? ==> d.files[f] == File(g.content, true))
  }

  /** Staged bytes that are about to be published as `planned` are flushed. */
  predicate PlannedIsFlushed(d: Disk, planned: Option<Digest>) {
    planned.Some? && StagedBytes(d) == Some(planned.value.content) ==> d.files[View(d)[Stage]].synced
  }

  ghost predicate ProcessOk(s: State, h: Hist, next: Option<Entry>) {
    var st := s.store;
    var clear := next.None? && Stage !in View(s.disk);
    match s.process
    case Down => true
    case Ready => clear && st.active.None?
    case Derived(reg, settle, after) =>
      && next.None? && ActionsOk(st, h, reg, settle) && !IsHalted(st) && AfterOk(st, after)
      && PlannedIsFlushed(s.disk, PlannedDigest(reg, settle))
    case SurvivorMoved(reg, settle, after) =>
      && Stage !in View(s.disk) && ActionsOk(st, Seen(h, next), reg, settle) && !IsHalted(st) && AfterOk(st, after)
    case Acting(reg, settle, after) =>
      clear && ActionsOk(st, h, reg, settle) && !IsHalted(st) && AfterOk(st, after)
    case Appending(e, g, f, point, cont) =>
      if point.Renamed? then
        && Stage !in View(s.disk) && Seen(h, next).Snoc?
        && var before := Seen(h, next).init;
        && Seen(h, next).last == e && g == NextDigest(before, e) && ContOk(st, before, e, cont)
      else
        && next.None? && StageOk(s.disk, g, f, point) && Private(s.disk, f)
        && g == NextDigest(h, e) && Rooted(Snoc(h, e)) && Agrees(st, Snoc(h, e)) && ContOk(st, h, e, cont)
    case Binding(column, digest, cont) =>
      && clear && h.Snoc? && digest == NextDigest(h.init, h.last)
      && !cont.Plain? && cont.column == column && ContOk(st, h.init, h.last, cont)
    case Submitted => clear && Live(st) && ActiveRecord(st).value.registration.None? && h == BaseOf(st, h)
    case Executing =>
      && clear && Live(st) && ActiveRecord(st).value.registration.Some?
      && OutcomeOf(ActiveRecord(st).value).None? && !ActiveRecord(st).value.state.RollingBack?
    case Deciding =>
      && clear && Live(st) && ActiveRecord(st).value.registration.Some? && ActiveRecord(st).value.settlement.None?
      && ActiveRecord(st).value.state.CommittedState?
      && h == WithReg(st.active.value, ActiveRecord(st).value, BaseOf(st, h))
    case Planning =>
      && clear && Live(st) && ActiveRecord(st).value.registration.Some?
      && (ActiveRecord(st).value.state.CommittedState? ==> ActiveRecord(st).value.settlement.Some?)
  }

  /** `h` is durable, `next` may or may not survive; the store agrees with either outcome. */
  ghost predicate InvWith(s: State, h: Hist, next: Option<Entry>) {
    && Holds(s.disk, h, next) && (next.Some? ==> Stage !in View(s.disk))
    && Agrees(s.store, h)
    && Agrees(s.store, Seen(h, next))
    && (s.store.active.Some? ==> BaseOf(s.store, Seen(h, next)) == BaseOf(s.store, h))
    && ProcessOk(s, h, next)
  }

  ghost predicate Inv(s: State) {
    exists h, next :: InvWith(s, h, next)
  }

  // ---- agreement is kept ----

  lemma RetiredExtends(t: Txid, r: Record, base: Hist, e: Entry)
    requires Retired(t, r, base)
    ensures Retired(t, r, Snoc(base, e))
  {
    FindExtends(base, e, r.registration.value);
    FindExtends(base, e, r.settlement.value);
  }

  lemma IntentAgrees(st: Store, h: Hist, e: Entry)
    requires Agrees(st, h) && st.active.None? && (e.Intent? || e.Genesis?)
    ensures Agrees(st, Snoc(h, e))
  {
    IntentKeepsClean(h, e);
    forall u | u in st.records
      ensures Retired(u, st.records[u], Snoc(h, e))
    {
      RetiredExtends(u, st.records[u], h, e);
    }
  }

  /** The registration, and then the settlement, of the active record may be appended. */
  lemma OwnEntryAgrees(st: Store, h: Hist, e: Entry, cont: Cont)
    requires Agrees(st, h) && !cont.Plain? && ContOk(st, h, e, cont)
    ensures Agrees(st, Snoc(h, e)) && BaseOf(st, Snoc(h, e)) == BaseOf(st, h)
  {
    StripTail(BaseOf(st, h), st.active.value, ActiveRecord(st).value);
  }

  lemma SubmitAgrees(st: Store, h: Hist, t: Txid, body: string, fulfills: Option<Digest>, effects: nat)
    requires Agrees(st, h) && st.active.None? && !h.Empty? && Gate(h, fulfills)
    requires Prepare(st, t, body, fulfills, effects).Some?
    ensures Agrees(Prepare(st, t, body, fulfills, effects).value, h)
    ensures BaseOf(Prepare(st, t, body, fulfills, effects).value, h) == h
  {
    StripBase(h, t);
  }

  lemma DetachAgrees(st: Store, h: Hist)
    requires Agrees(st, h) && st.active.Some? && ClearActive(st).Some?
    ensures Agrees(ClearActive(st).value, h)
  {
    var t := st.active.value;
    var r := st.records[t];
    var base := BaseOf(st, h);
    var reg := RegEntry(t, r);
    AgreementIsClean(st, h);
    GateIsExact(base, reg);
    assert h == WithSettle(t, r, base, OutcomeOf(r).value);
    forall u | u in st.records
      ensures Retired(u, st.records[u], h)
    {
      if u == t {
        assert Find(h.init, r.registration.value) == Some(reg);
        FindExtends(h.init, h.last, r.registration.value);
      } else {
        RetiredExtends(u, st.records[u], base, reg);
        RetiredExtends(u, st.records[u], h.init, h.last);
      }
    }
  }

  /** A binding that the triggers accept keeps agreement. */
  lemma BindAgrees(s: State, s': State, h: Hist)
    requires Agrees(s.store, h) && Bind(s, s') && h.Snoc?
    requires s.process.digest == NextDigest(h.init, h.last)
    requires !s.process.cont.Plain? && s.process.cont.column == s.process.column
    requires ContOk(s.store, h.init, h.last, s.process.cont)
    ensures Agrees(s'.store, h) && BaseOf(s'.store, h) == BaseOf(s.store, h)
  {
    OwnEntryAgrees(s.store, h.init, h.last, s.process.cont) by {
      var t, r, base := s.store.active.value, ActiveRecord(s.store).value, BaseOf(s.store, h.init);
      assert Strip(h, t) == Strip(h.init, t);
    }
  }

  // ---- faults ----

  lemma FaultKeeps(s: State, s': State, h: Hist, next: Option<Entry>) returns (h': Hist, next': Option<Entry>)
    requires InvWith(s, h, next) && Fault(s, s')
    ensures InvWith(s', h', next')
    ensures h' == h || h' == Seen(h, next)
    ensures s'.store == s.store
  {
    h', next' := h, next;
    if LosePower(s, s') {
      h' := PowerLossOutcome(s.disk, h, next, s'.disk);
      next' := None;
    } else if WriteBack(s, s') {
      h', next' := WritebackOutcome(s.disk, h, next, s'.disk);
      if s.process.Appending? && !s.process.point.Renamed? {
        WritebackPrivate(s.disk, s'.disk, s.process.file);
      }
    }
  }

  // ---- recovery ----

  lemma ReadsKeep(s: State, s': State, h: Hist, next: Option<Entry>, after: After)
    requires InvWith(s, h, next) && DeriveFrom(s, s', after)
    requires Quiet(s) && !IsHalted(s.store) && AfterOk(s.store, after)
    ensures InvWith(s', h, next)
  {
    assert next.None?;
    ViewReads(s.disk, h, next);
    var h0 :| Validates(s.disk, h0) && Derive(s.store, h0).Repairs?
      && s' == s.(process := Derived(Derive(s.store, h0).registration, Derive(s.store, h0).settlement, after));
    ReadsAsUnique(s.disk, h, h0);
    DeriveSucceeds(s.store, h);
    var planned := PlannedDigest(s'.process.registration, s'.process.settlement);
    if planned.Some? {
      assert Plans(s, planned.value);
    }
  }

  /** Where the one planned entry goes, if it is not there yet. */
  lemma PlannedPlace(st: Store, h: Hist, reg: Action, settle: Action, g: Digest) returns (e: Entry, cont: Cont)
    requires Agrees(st, h) && Rooted(h) && ActionsOk(st, h, reg, settle) && !IsHalted(st)
    requires PlannedDigest(reg, settle) == Some(g) && g !in Digests(h)
    ensures g == NextDigest(h, e) && Rooted(Snoc(h, e)) && Agrees(st, Snoc(h, e))
    ensures ActionsOk(st, Snoc(h, e), reg, settle)
    ensures BaseOf(st, Snoc(h, e)) == BaseOf(st, h)
    ensures !cont.Plain? && ContOk(st, h, e, cont)
    ensures e == if reg.Append? then reg.entry else settle.entry
    ensures cont == Repair(if reg.Append? then RegistrationColumn else SettlementColumn, Skip, ToPlan)
  {
    e := if reg.Append? then reg.entry else settle.entry;
    cont := Repair(if reg.Append? then RegistrationColumn else SettlementColumn, Skip, ToPlan);
    OwnEntryAgrees(st, h, e, cont);
  }

  lemma SurvivorKeeps(s: State, s': State, h: Hist, next: Option<Entry>) returns (next': Option<Entry>)
    requires InvWith(s, h, next) && ApplySurvivor(s, s')
    ensures InvWith(s', h, next')
    ensures s'.store == s.store
  {
    ViewReads(s.disk, h, next);
    next' := None;
    if s'.process.SurvivorMoved? {
      var planned := PlannedDigest(s.process.registration, s.process.settlement);
      if s'.disk == UnlinkStage(s.disk) {
        UnlinkStageHolds(s.disk, h, None);
      } else {
        var e, cont := PlannedPlace(s.store, h, s.process.registration, s.process.settlement, planned.value);
        PublishHolds(s.disk, h, e);
        next' := Some(e);
      }
    }
  }

  lemma FlushSurvivorKeeps(s: State, s': State, h: Hist, next: Option<Entry>)
    requires InvWith(s, h, next) && FlushSurvivor(s, s')
    ensures InvWith(s', Seen(h, next), None)
  {
    FlushDirectoryHolds(s.disk, h, next);
  }

  lemma ActBindKeeps(s: State, s': State, h: Hist, next: Option<Entry>)
    requires InvWith(s, h, next) && ActBind(s, s')
    ensures InvWith(s', h, next)
  {
    ViewReads(s.disk, h, next);
    var (action, cont) := NextAction(s.process);
    var t, r, base := s.store.active.value, ActiveRecord(s.store).value, BaseOf(s.store, h);
    assert action.digest in Digests(h);
    NextDigestIsFresh(base, RegEntry(t, r));
    if cont.column.SettlementColumn? {
      NextDigestIsFresh(WithReg(t, r, base), SettleEntry(t, r, base, OutcomeOf(r).value));
    }
    StripTail(base, t, r);
  }

  lemma StartKeeps(s: State, s': State, h: Hist, next: Option<Entry>, e: Entry, cont: Cont)
    requires InvWith(s, h, next) && next.None? && StartAppend(s, s', e, cont)
    requires Agrees(s.store, Snoc(h, e)) && ContOk(s.store, h, e, cont)
    ensures InvWith(s', h, None)
  {
    ViewReads(s.disk, h, next);
    var h0, f :| Validates(s.disk, h0) && Rooted(Snoc(h0, e)) && f !in s.disk.files
      && s' == s.(disk := CreateStage(s.disk, f), process := Appending(e, NextDigest(h0, e), f, Created, cont));
    ReadsAsUnique(s.disk, h, h0);
    CreateStageHolds(s.disk, h, None, f);
  }

  lemma ActAppendKeeps(s: State, s': State, h: Hist, next: Option<Entry>)
    requires InvWith(s, h, next) && ActAppend(s, s')
    ensures InvWith(s', h, None)
  {
    ViewReads(s.disk, h, next);
    var (action, cont) := NextAction(s.process);
    var e, c := PlannedPlace(s.store, h, s.process.registration, s.process.settlement, action.digest);
    assert ContOk(s.store, h, e, cont);
    StartKeeps(s, s', h, next, e, cont);
  }

  lemma ActDoneKeeps(s: State, s': State, h: Hist, next: Option<Entry>)
    requires InvWith(s, h, next) && ActDone(s, s')
    ensures InvWith(s', h, next)
  {
    if s.process.after.ToDetach? {
      DetachAgrees(s.store, h);
    }
  }

  // ---- appends and bindings ----

  lemma AppendKeeps(s: State, s': State, h: Hist, next: Option<Entry>) returns (h': Hist, next': Option<Entry>)
    requires InvWith(s, h, next) && AppendStep(s, s')
    ensures InvWith(s', h', next')
    ensures s'.store == s.store && (h' == h || h' == Seen(h, next))
  {
    h', next' := h, next;
    var f, g := s.process.file, s.process.digest;
    if Fill(s, s') {
      var bytes, p: Point :|
        && (p == Created || (p == Filled && bytes == g.content))
        && s' == s.(disk := WriteFile(s.disk, f, bytes), process := s.process.(point := p));
      WriteFileHolds(s.disk, h, None, f, bytes);
    } else if FlushStage(s, s') {
      FlushFileHolds(s.disk, h, None, f);
    } else if Rename(s, s') {
      PublishHolds(s.disk, h, s.process.entry);
      next' := Some(s.process.entry);
      if !s.process.cont.Plain? {
        OwnEntryAgrees(s.store, h, s.process.entry, s.process.cont);
      }
    } else {
      FlushDirectoryHolds(s.disk, h, next);
      h', next' := Seen(h, next), None;
    }
  }

  lemma BindKeeps(s: State, s': State, h: Hist, next: Option<Entry>)
    requires InvWith(s, h, next) && Bind(s, s')
    ensures InvWith(s', h, next)
  {
    BindAgrees(s, s', h);
    var t, r, base := s.store.active.value, ActiveRecord(s.store).value, BaseOf(s.store, h.init);
    assert Strip(h, t) == Strip(h.init, t);
  }

  // ---- commands and record transitions ----

  lemma SubmitKeeps(s: State, s': State, h: Hist, next: Option<Entry>)
    requires InvWith(s, h, next) && Submit(s, s')
    ensures InvWith(s', h, next)
  {
    ViewReads(s.disk, h, next);
    var h0, t, body, fulfills, effects: nat :|
      && Validates(s.disk, h0) && !h0.Empty? && Gate(h0, fulfills)
      && Prepare(s.store, t, body, fulfills, effects).Some?
      && s' == s.(store := Prepare(s.store, t, body, fulfills, effects).value, process := Submitted);
    ReadsAsUnique(s.disk, h, h0);
    SubmitAgrees(s.store, h, t, body, fulfills, effects);
  }

  lemma IntentKeeps(s: State, s': State, h: Hist, next: Option<Entry>)
    requires InvWith(s, h, next) && (AppendIntent(s, s') || AppendGenesis(s, s'))
    ensures InvWith(s', h, next)
  {
    var e := s'.process.entry;
    IntentAgrees(s.store, h, e);
    StartKeeps(s, s', h, next, e, Plain);
  }

  lemma RegisterKeeps(s: State, s': State, h: Hist, next: Option<Entry>)
    requires InvWith(s, h, next) && Register(s, s')
    ensures InvWith(s', h, next)
  {
    OwnEntryAgrees(s.store, h, s'.process.entry, s'.process.cont);
    StartKeeps(s, s', h, next, s'.process.entry, s'.process.cont);
  }

  lemma SettleKeeps(s: State, s': State, h: Hist, next: Option<Entry>)
    requires InvWith(s, h, next) && Settle(s, s')
    ensures InvWith(s', h, next)
  {
    OwnEntryAgrees(s.store, h, s'.process.entry, s'.process.cont);
    StartKeeps(s, s', h, next, s'.process.entry, s'.process.cont);
  }

  lemma CommandKeeps(s: State, s': State, h: Hist, next: Option<Entry>)
    requires InvWith(s, h, next) && CommandStep(s, s')
    ensures InvWith(s', h, next)
  {
    if Submit(s, s') {
      SubmitKeeps(s, s', h, next);
    } else if AppendIntent(s, s') || AppendGenesis(s, s') {
      IntentKeeps(s, s', h, next);
    } else if Register(s, s') {
      RegisterKeeps(s, s', h, next);
    } else {
      SettleKeeps(s, s', h, next);
    }
  }

  /** Replacing the active record by one with the same identity and a fitting shape keeps agreement. */
  lemma PutAgrees(st: Store, r: Record, h: Hist)
    requires Agrees(st, h) && st.active.Some?
    requires r.fulfills == st.records[st.active.value].fulfills
    requires r.state.Halted? <==> r.preHalt.Some?
    requires Shape(st.active.value, r, BaseOf(st, h), h)
    ensures Agrees(Put(st, st.active.value, r), h)
  {
  }

  lemma ExecuteStateKeeps(s: State, s': State, h: Hist, next: Option<Entry>)
    requires InvWith(s, h, next) && ExecuteState(s, s')
    ensures InvWith(s', h, next)
  {
    var t := s.store.active.value;
    var r := s'.store.records[t];
    assert RegEntry(t, r) == RegEntry(t, s.store.records[t]);
    PutAgrees(s.store, r, h);
    assert s'.store == Put(s.store, t, r);
  }

  lemma PlanStateKeeps(s: State, s': State, h: Hist, next: Option<Entry>)
    requires InvWith(s, h, next) && PlanState(s, s')
    ensures InvWith(s', h, next)
  {
    var t := s.store.active.value;
    var r := s'.store.records[t];
    assert RegEntry(t, r) == RegEntry(t, s.store.records[t]);
    PutAgrees(s.store, r, h);
    assert s'.store == Put(s.store, t, r);
  }

  lemma StateKeeps(s: State, s': State, h: Hist, next: Option<Entry>)
    requires InvWith(s, h, next) && (ExecuteState(s, s') || PlanState(s, s'))
    ensures InvWith(s', h, next)
  {
    if ExecuteState(s, s') {
      ExecuteStateKeeps(s, s', h, next);
    } else {
      PlanStateKeeps(s, s', h, next);
    }
  }

  lemma JournalKeeps(s: State, s': State, h: Hist, next: Option<Entry>)
    requires InvWith(s, h, next) && (ExecuteJournal(s, s') || PlanJournal(s, s') || PlanAssemblyHalt(s, s'))
    ensures InvWith(s', h, next)
  {
    var t := s.store.active.value;
    var r := s'.store.records[t];
    assert RegEntry(t, r) == RegEntry(t, s.store.records[t]);
    PutAgrees(s.store, r, h);
    assert s'.store == Put(s.store, t, r);
  }

  // ---- all together ----

  lemma EntryKeeps(s: State, s': State, h: Hist, next: Option<Entry>)
    requires InvWith(s, h, next) && Reads(s, s') && Quiet(s)
    ensures Inv(s')
  {
    ReadsKeep(s, s', h, next, ToPlan);
  }

  lemma DetachKeeps(s: State, s': State, h: Hist, next: Option<Entry>)
    requires InvWith(s, h, next) && PlanDetach(s, s')
    ensures Inv(s')
  {
    forall op | op in s.disk.ops ensures !op.name.Leaf? {
      assert OpHolds(s.disk, h, next, op);
    }
    assert StagedBytes(s.disk).None?;
    assert Quiet(s);
    ReadsKeep(s, s', h, next, ToDetach);
  }

  lemma RepairKeeps(s: State, s': State, h: Hist, next: Option<Entry>)
    requires InvWith(s, h, next) && RepairStep(s, s')
    ensures Inv(s')
  {
    if ApplySurvivor(s, s') {
      var next' := SurvivorKeeps(s, s', h, next);
    } else if FlushSurvivor(s, s') {
      FlushSurvivorKeeps(s, s', h, next);
    } else if ActBind(s, s') {
      ActBindKeeps(s, s', h, next);
    } else {
      ActAppendKeeps(s, s', h, next);
    }
  }

  lemma RecordKeeps(s: State, s': State, h: Hist, next: Option<Entry>)
    requires InvWith(s, h, next) && RecordStep(s, s')
    ensures Inv(s')
  {
    if ExecuteState(s, s') || PlanState(s, s') {
      StateKeeps(s, s', h, next);
    } else {
      JournalKeeps(s, s', h, next);
    }
  }

  lemma StepKeeps(s: State, s': State)
    requires Inv(s) && QuietStep(s, s')
    ensures Inv(s')
  {
    var h, next :| InvWith(s, h, next);
    if Fault(s, s') {
      var h', next' := FaultKeeps(s, s', h, next);
    } else if Reads(s, s') {
      EntryKeeps(s, s', h, next);
    } else if RepairStep(s, s') {
      RepairKeeps(s, s', h, next);
    } else if AppendStep(s, s') {
      var h', next' := AppendKeeps(s, s', h, next);
    } else if Bind(s, s') {
      BindKeeps(s, s', h, next);
    } else if ActDone(s, s') {
      ActDoneKeeps(s, s', h, next);
    } else if CommandStep(s, s') {
      CommandKeeps(s, s', h, next);
    } else if RecordStep(s, s') {
      RecordKeeps(s, s', h, next);
    } else {
      DetachKeeps(s, s', h, next);
    }
  }
}
