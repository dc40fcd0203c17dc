/** Transaction records, the write triggers that guard them, and the derivation of repairs. */
module RecordStore {
  import opened ChainModel
  import opened ChainRules

  datatype TxState =
    | Prepared | Applying | Applied | CommittedState | RollingBack | RolledBackState | Halted

  datatype Journal = Pending | Started | Done | UndoStarted | Undone

  datatype Record = Record(
    body: string,
    fulfills: Option<Digest>,
    state: TxState,
    journals: seq<Journal>,
    preHalt: Option<TxState>,
    registration: Option<Digest>,
    settlement: Option<Digest>,
    assemblyHalt: bool)

  datatype Store = Store(records: map<Txid, Record>, active: Option<Txid>)

  predicate AllPending(r: Record) {
    forall i :: 0 <= i < |r.journals| ==> r.journals[i].Pending?
  }

  predicate Terminal(s: TxState) {
    s.CommittedState? || s.RolledBackState?
  }

  // ---- guarded row updates; None is a refused statement ----

  function Put(st: Store, t: Txid, r: Record): Store {
    st.(records := st.records[t := r])
  }

  function SetRegistration(st: Store, t: Txid, d: Digest): Option<Store> {
    if t !in st.records then None else
    var r := st.records[t];
    if r.assemblyHalt || r.registration.Some? || !r.state.Prepared? || !AllPending(r)
       || exists u :: u in st.records && u != t && st.records[u].registration == Some(d)
    then None
    else Some(Put(st, t, r.(registration := Some(d))))
  }

  function SetSettlement(st: Store, t: Txid, d: Digest): Option<Store> {
    if t !in st.records then None else
    var r := st.records[t];
    if r.assemblyHalt || r.settlement.Some? || r.registration.None? || !Terminal(r.state)
       || exists u :: u in st.records && u != t && st.records[u].settlement == Some(d)
    then None
    else Some(Put(st, t, r.(settlement := Some(d))))
  }

  /** Moving to Halted stores the diagnostic, whose pre-halt state is the state left. */
  function SetState(st: Store, t: Txid, to: TxState): Option<Store> {
    if t !in st.records then None else
    var r := st.records[t];
    if r.assemblyHalt || (r.state.Prepared? && !to.Prepared? && r.registration.None?) then None
    else Some(Put(st, t, r.(state := to, preHalt := if to.Halted? then Some(r.state) else r.preHalt)))
  }

  function SetJournal(st: Store, t: Txid, i: nat, to: Journal): Option<Store> {
    if t !in st.records || i >= |st.records[t].journals| then None else
    var r := st.records[t];
    if r.assemblyHalt || (r.journals[i].Pending? && to.Started? && (!r.state.Applying? || r.registration.None?))
    then None
    else Some(Put(st, t, r.(journals := r.journals[i := to])))
  }

  function SetAssemblyHalt(st: Store, t: Txid): Option<Store> {
    if t !in st.records || st.records[t].assemblyHalt then None
    else Some(Put(st, t, st.records[t].(assemblyHalt := true)))
  }

  predicate Detachable(r: Record) {
    Terminal(r.state) && r.registration.Some? && r.settlement.Some? && !r.assemblyHalt
  }

  function ClearActive(st: Store): Option<Store> {
    if st.active.Some? && (st.active.value !in st.records || !Detachable(st.records[st.active.value])) then None
    else Some(st.(active := None))
  }

  /** Insert a fresh record and make it active, in one store transaction. */
  function Prepare(st: Store, t: Txid, body: string, fulfills: Option<Digest>, effects: nat): Option<Store> {
    if t in st.records || st.active.Some? then None
    else
      var r := Record(body, fulfills, Prepared, seq(effects, _ => Pending), None, None, None, false);
      Some(Store(st.records[t := r], Some(t)))
  }

  // ---- reconciliation, as derived from one record and one validated history ----

  datatype Action = Skip | Backfill(digest: Digest) | Append(entry: Entry, digest: Digest)

  datatype Reconciliation = Repairs(registration: Action, settlement: Action) | Contradiction

  function RegEntry(t: Txid, r: Record): Entry {
    Registered(t, r.body, r.fulfills)
  }

  function OutcomeOf(r: Record): Option<Outcome> {
    match r.state
    case CommittedState => Some(Committed)
    case RolledBackState => Some(RolledBack)
    case _ => None
  }

  predicate CommittedHalt(r: Record) {
    r.state.Halted? && r.preHalt == Some(CommittedState)
  }

  function DeriveRegistration(t: Txid, r: Record, h: Hist): Option<Action> {
    var found := Registrations(h, t);
    if |found| > 1 then None
    else if r.registration.Some? then
      var bound := Find(h, r.registration.value);
      if bound.Some? && bound.value.Registered? && bound.value.txid == t then Some(Skip) else None
    else if !(r.state.Prepared? && AllPending(r)) then None
    else if found != [] then Some(Backfill(found[0]))
    else Some(Append(RegEntry(t, r), NextDigest(h, RegEntry(t, r))))
  }

  function DeriveSettlement(t: Txid, r: Record, h: Hist): Option<Action> {
    var found := Settlements(h, t);
    var outcome := OutcomeOf(r);
    if |found| > 1 then None
    else if r.settlement.Some? then
      var expected := if CommittedHalt(r) then Some(Committed) else outcome;
      var bound := Find(h, r.settlement.value);
      if && bound.Some? && bound.value.Settled? && bound.value.txid == t
         && Some(bound.value.registration) == r.registration
         && Some(bound.value.outcome) == expected
         && (outcome.Some? || CommittedHalt(r))
      then Some(Skip) else None
    else if outcome.Some? then
      // an unregistered record has already been refused by DeriveRegistration
      if r.registration.None? then None else
      var expected := Settled(t, r.registration.value, outcome.value);
      if found == [] then Some(Append(expected, NextDigest(h, expected)))
      else if Find(h, found[0]) == Some(expected) then Some(Backfill(found[0]))
      else None
    else if found != [] then None
    else Some(Skip)
  }

  function Derive(st: Store, h: Hist): Reconciliation {
    if st.active.None? || st.active.value !in st.records then Repairs(Skip, Skip) else
    var t := st.active.value;
    var reg := DeriveRegistration(t, st.records[t], h);
    var settle := DeriveSettlement(t, st.records[t], h);
    if reg.None? || settle.None? then Contradiction else Repairs(reg.value, settle.value)
  }

  // ---- what the statements write ----

  /** A digest is stored once, under its own column: the registration's while nothing has begun, the
      settlement's on a registered record that has ended, neither on a frozen record.  */
  lemma DigestWrites(st: Store, t: Txid, d: Digest)
    requires t in st.records
    ensures var r := st.records[t];
      && (SetRegistration(st, t, d).Some? <==>
            && r.registration == None && !r.assemblyHalt && r.state == Prepared && (forall i :: 0 <= i < |r.journals| ==> r.journals[i] == Pending)
            && forall u :: u in st.records ==> u == t || st.records[u].registration != Some(d))
      && (SetSettlement(st, t, d).Some? <==>
            && r.settlement == None && !r.assemblyHalt && r.registration != None && (r.state == CommittedState || r.state == RolledBackState)
            && forall u :: u in st.records ==> u == t || st.records[u].settlement != Some(d))
      && (SetRegistration(st, t, d).Some? ==>
            SetRegistration(st, t, d).value
            == Store(st.records[t := Record(r.body, r.fulfills, r.state, r.journals, r.preHalt, Some(d), r.settlement, r.assemblyHalt)], st.active))
      && (SetSettlement(st, t, d).Some? ==>
            SetSettlement(st, t, d).value
            == Store(st.records[t := Record(r.body, r.fulfills, r.state, r.journals, r.preHalt, r.registration, Some(d), r.assemblyHalt)], st.active))
  {
  }

  /** A record leaves PREPARED only registered, a journal starts only while its registered record is
      applying, and a frozen record changes in neither; a halt remembers the state it left.  */
  lemma ProgressWrites(st: Store, t: Txid, to: TxState, i: nat, journal: Journal)
    requires t in st.records && i < |st.records[t].journals|
    ensures var r := st.records[t];
      && (SetState(st, t, to).Some? <==> !r.assemblyHalt && (r.state == Prepared && to != Prepared ==> r.registration != None))
      && (SetJournal(st, t, i, journal).Some? <==>
            !r.assemblyHalt && (r.journals[i] == Pending && journal == Started ==> r.state == Applying && r.registration != None))
      && (SetState(st, t, to).Some? ==>
            SetState(st, t, to).value
            == Store(st.records[t := Record(r.body, r.fulfills, to, r.journals, if to == Halted then Some(r.state) else r.preHalt,
                                            r.registration, r.settlement, false)], st.active))
      && (SetJournal(st, t, i, journal).Some? ==>
            SetJournal(st, t, i, journal).value
            == Store(st.records[t := Record(r.body, r.fulfills, r.state, r.journals[..i] + [journal] + r.journals[i + 1..], r.preHalt,
                                            r.registration, r.settlement, false)], st.active))
  {
    var journals := st.records[t].journals;
    assert journals[i := journal] == journals[..i] + [journal] + journals[i + 1..];
  }

  /** An assembly halt is stored once and is all that is stored. */
  lemma AssemblyHaltWrites(st: Store, t: Txid)
    requires t in st.records
    ensures SetAssemblyHalt(st, t).Some? <==> !st.records[t].assemblyHalt
    ensures var r := st.records[t]; SetAssemblyHalt(st, t).Some? ==>
      SetAssemblyHalt(st, t).value
      == Store(st.records[t := Record(r.body, r.fulfills, r.state, r.journals, r.preHalt, r.registration, r.settlement, true)], st.active)
  {
  }

  /** A transaction is recorded as submitted, with nothing begun, under a new txid while no other is active. */
  lemma PrepareWrites(st: Store, t: Txid, body: string, fulfills: Option<Digest>, effects: nat)
    ensures Prepare(st, t, body, fulfills, effects).Some? <==> t !in st.records && st.active == None
    ensures Prepare(st, t, body, fulfills, effects).Some? ==>
      Prepare(st, t, body, fulfills, effects).value
      == Store(st.records[t := Record(body, fulfills, Prepared, seq(effects, _ => Pending), None, None, None, false)], Some(t))
  {
  }

  /** The slot is cleared when it is empty or its record is unhalted, ended and bound twice; no record changes. */
  lemma ClearWrites(st: Store)
    ensures ClearActive(st).Some? <==>
      st.active.Some? ==>
        && st.active.value in st.records
        && var r := st.records[st.active.value];
        && (r.state == CommittedState || r.state == RolledBackState)
        && r.registration != None && r.settlement != None && !r.assemblyHalt
    ensures ClearActive(st).Some? ==> ClearActive(st).value == Store(st.records, None)
  {
  }

  // ---- what the derivation asks for ----

  /** The registration: one that is bound must be there, one that is not is bound where it stands or
      appended at the tip, as long as nothing has begun.  */
  lemma RegistrationDue(t: Txid, r: Record, h: Hist)
    ensures var found, entry := Registrations(h, t), Registered(t, r.body, r.fulfills);
      && (r.registration.Some? ==>
            (DeriveRegistration(t, r, h) == Some(Skip) <==>
              && |found| <= 1
              && exists body, fulfills :: Find(h, r.registration.value) == Some(Registered(t, body, fulfills))))
      && (r.registration.None? ==>
            var open := |found| <= 1 && r.state == Prepared && forall i :: 0 <= i < |r.journals| ==> r.journals[i] == Pending;
            && (DeriveRegistration(t, r, h) == Some(Append(entry, NextDigest(h, entry))) <==> open && found == [])
            && (forall d :: DeriveRegistration(t, r, h) == Some(Backfill(d)) <==> open && found == [d]))
      && (DeriveRegistration(t, r, h).Some? ==>
            var action := DeriveRegistration(t, r, h).value;
            action in {Skip, Append(entry, NextDigest(h, entry))} || action.Backfill?)
  {
    var found := Registrations(h, t);
    if r.registration.Some? {
      var bound := Find(h, r.registration.value);
      if bound.Some? && bound.value.Registered? {
        assert bound == Some(Registered(bound.value.txid, bound.value.body, bound.value.fulfills));
      }
    }
    assert |found| == 1 ==> found == [found[0]];
  }

  /** The settlement of a record whose state settles it as `outcome`. */
  lemma SettlementDue(t: Txid, r: Record, h: Hist, outcome: Outcome)
    requires r.registration.Some? && r.settlement.None?
    requires (r.state == CommittedState && outcome == Committed) || (r.state == RolledBackState && outcome == RolledBack)
    ensures var found, entry := Settlements(h, t), Settled(t, r.registration.value, outcome);
      && (DeriveSettlement(t, r, h) == Some(Append(entry, NextDigest(h, entry))) <==> found == [])
      && (forall d :: DeriveSettlement(t, r, h) == Some(Backfill(d)) <==> found == [d] && Find(h, d) == Some(entry))
      && (DeriveSettlement(t, r, h).Some? ==> !DeriveSettlement(t, r, h).value.Skip?)
  {
    var found := Settlements(h, t);
    assert |found| == 1 ==> found == [found[0]];
  }

  /** Nothing is due from a record that has not ended, and nothing may be there. */
  lemma NoSettlementDue(t: Txid, r: Record, h: Hist)
    requires r.settlement.None? && r.state != CommittedState && r.state != RolledBackState
    ensures DeriveSettlement(t, r, h) == if Settlements(h, t) == [] then Some(Skip) else None
  {
  }

  /** A bound settlement must be there, of this registration and with the outcome of the record's state,
      which is committed too when the record was halted after its commit.  */
  lemma BoundSettlementHolds(t: Txid, r: Record, h: Hist)
    requires r.settlement.Some?
    ensures DeriveSettlement(t, r, h) == Some(Skip) <==>
      && |Settlements(h, t)| <= 1 && r.registration.Some?
      && ((Find(h, r.settlement.value) == Some(Settled(t, r.registration.value, Committed))
           && (r.state == CommittedState || (r.state == Halted && r.preHalt == Some(CommittedState))))
          || (Find(h, r.settlement.value) == Some(Settled(t, r.registration.value, RolledBack)) && r.state == RolledBackState))
    ensures DeriveSettlement(t, r, h).Some? ==> DeriveSettlement(t, r, h).value.Skip?
  {
  }
}
