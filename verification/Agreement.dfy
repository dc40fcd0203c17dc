/** When a store and a history agree, and why agreement makes every repair derivable. */
module Agreement {
  import opened ChainModel
  import opened ChainRules
  import opened RecordStore

  /** `h` without its trailing entries of transaction `t`. */
  function Strip(h: Hist, t: Txid): Hist {
    if h.Snoc? && (h.last.Registered? || h.last.Settled?) && h.last.txid == t then Strip(h.init, t) else h
  }

  function BaseOf(st: Store, h: Hist): Hist {
    if st.active.None? then h else Strip(h, st.active.value)
  }

  function WithReg(t: Txid, r: Record, base: Hist): Hist {
    Snoc(base, RegEntry(t, r))
  }

  function SettleEntry(t: Txid, r: Record, base: Hist, o: Outcome): Entry {
    Settled(t, NextDigest(base, RegEntry(t, r)), o)
  }

  function WithSettle(t: Txid, r: Record, base: Hist, o: Outcome): Hist {
    Snoc(WithReg(t, r, base), SettleEntry(t, r, base, o))
  }

  /** The outcome a bound settlement must carry. */
  function BoundOutcome(r: Record): Option<Outcome> {
    if CommittedHalt(r) then Some(Committed) else OutcomeOf(r)
  }

  /** How far the chain may have got for an active record in this durable state. */
  predicate Shape(t: Txid, r: Record, base: Hist, h: Hist) {
    if r.registration.None? then
      r.state.Prepared? && AllPending(r) && r.settlement.None? && (h == base || h == WithReg(t, r, base))
    else
      && r.registration == Some(NextDigest(base, RegEntry(t, r)))
      && if r.settlement.Some? then
           && BoundOutcome(r).Some?
           && h == WithSettle(t, r, base, BoundOutcome(r).value)
           && r.settlement == Tip(h)
         else
           h == WithReg(t, r, base) || (OutcomeOf(r).Some? && h == WithSettle(t, r, base, OutcomeOf(r).value))
  }

  /** A record no longer active: terminal, unhalted, and bound to its two entries. */
  predicate Retired(t: Txid, r: Record, base: Hist) {
    && Detachable(r)
    && Find(base, r.registration.value) == Some(RegEntry(t, r))
    && Find(base, r.settlement.value) == Some(Settled(t, r.registration.value, OutcomeOf(r).value))
  }

  ghost predicate AgreesOn(st: Store, base: Hist, h: Hist) {
    && Clean(base)
    && PendingTxids(base) == {}
    && RegisteredTxids(base) <= st.records.Keys
    && (forall u :: u in st.records && st.active != Some(u) ==> Retired(u, st.records[u], base))
    && (st.active.Some? ==>
          var t := st.active.value;
          && t in st.records
          && t !in RegisteredTxids(base)
          && !base.Empty?
          && Gate(base, st.records[t].fulfills)
          && (st.records[t].state.Halted? <==> st.records[t].preHalt.Some?)
          && Shape(t, st.records[t], base, h))
  }

  ghost predicate Agrees(st: Store, h: Hist) {
    AgreesOn(st, BaseOf(st, h), h)
  }

  // ---- base and prefixes ----

  lemma StripBase(base: Hist, t: Txid)
    requires Clean(base) && t !in RegisteredTxids(base)
    ensures Strip(base, t) == base
  {
    if base.Snoc? {
      AtMostOnce(base, t);
    }
  }

  lemma StripTail(base: Hist, t: Txid, r: Record)
    requires Clean(base) && t !in RegisteredTxids(base)
    ensures Strip(WithReg(t, r, base), t) == base
    ensures forall o :: Strip(WithSettle(t, r, base, o), t) == base
  {
    StripBase(base, t);
  }

  lemma {:induction false} CleanWithout(h: Hist, t: Txid)
    requires Clean(h) && t !in RegisteredTxids(h)
    ensures Registrations(h, t) == [] && Settlements(h, t) == []
  {
    AtMostOnce(h, t);
  }

  // ---- what agreement gives ----

  /** What the chain holds beyond its base, for an active record of this shape. */
  lemma ShapeIsClean(t: Txid, r: Record, base: Hist, h: Hist)
    requires Clean(base) && PendingTxids(base) == {} && t !in RegisteredTxids(base) && Gate(base, r.fulfills)
    requires Shape(t, r, base, h)
    ensures Clean(h) && PendingTxids(h) <= {t} && RegisteredTxids(h) <= RegisteredTxids(base) + {t}
  {
    var reg := RegEntry(t, r);
    GateIsExact(base, reg);
    if h != base && h != WithReg(t, r, base) {
      assert h == WithTransaction(base, reg, h.last.outcome);
      RolledBackIsClean(base, reg);
    }
  }

  lemma RolledBackIsClean(base: Hist, reg: Entry)
    requires Clean(base) && reg.Registered? && reg.txid !in RegisteredTxids(base) && Gate(base, reg.fulfills)
    ensures forall o :: Clean(WithTransaction(base, reg, o)) && PendingTxids(WithTransaction(base, reg, o)) == PendingTxids(base)
  {
    GateIsExact(base, reg);
    forall o ensures Clean(WithTransaction(base, reg, o)) {
      assert o == Committed || o == RolledBack;
    }
  }

  /** Agreement makes the whole chain clean, with nothing pending but the active transaction. */
  lemma AgreementIsClean(st: Store, h: Hist)
    requires Agrees(st, h)
    ensures Clean(h)
    ensures PendingTxids(h) <= (if st.active.Some? then {st.active.value} else {})
    ensures RegisteredTxids(h) <= st.records.Keys
  {
    if st.active.Some? {
      ShapeIsClean(st.active.value, st.records[st.active.value], BaseOf(st, h), h);
    }
  }

  /** What the derived actions mean for an agreeing store and history: each names the digest the
      entry has, or will have, at its one place in the chain.  */
  predicate ActionsOk(st: Store, h: Hist, reg: Action, settle: Action) {
    if st.active.None? || st.active.value !in st.records then reg.Skip? && settle.Skip? else
    var t := st.active.value;
    var r := st.records[t];
    var base := BaseOf(st, h);
    && (reg.Skip? <==> r.registration.Some?)
    && (!reg.Skip? ==> reg.digest == NextDigest(base, RegEntry(t, r)) && settle.Skip?)
    && (reg.Backfill? ==> h == WithReg(t, r, base))
    && (reg.Append? ==> reg.entry == RegEntry(t, r))
    && (settle.Skip? <==> OutcomeOf(r).None? || r.settlement.Some?)
    && (!settle.Skip? ==>
          var e := SettleEntry(t, r, base, OutcomeOf(r).value);
          && settle.digest == NextDigest(WithReg(t, r, base), e)
          && (settle.Backfill? ==> h == WithSettle(t, r, base, OutcomeOf(r).value))
          && (settle.Append? ==> settle.entry == e))
  }

  /** On an agreeing store and history the derivation never finds a contradiction, never asks for
      two repairs of the chain, and every repair it names is the right one.  */
  lemma DeriveSucceeds(st: Store, h: Hist)
    requires Agrees(st, h)
    ensures Derive(st, h).Repairs?
    ensures ActionsOk(st, h, Derive(st, h).registration, Derive(st, h).settlement)
    ensures Derive(st, h).registration.Skip? || Derive(st, h).settlement.Skip?
  {
    if st.active.Some? {
      var t := st.active.value;
      var r := st.records[t];
      var base := BaseOf(st, h);
      CleanWithout(base, t);
      var reg := RegEntry(t, r);
      assert Find(WithReg(t, r, base), NextDigest(base, reg)) == Some(reg);
      assert Registrations(WithReg(t, r, base), t) == [NextDigest(base, reg)];
      assert Settlements(WithReg(t, r, base), t) == [];
      if h != base && h != WithReg(t, r, base) {
        var o := h.last.outcome;
        var e := SettleEntry(t, r, base, o);
        NextDigestIsFresh(WithReg(t, r, base), e);
        assert Settlements(h, t) == [NextDigest(WithReg(t, r, base), e)];
        assert Find(h, NextDigest(WithReg(t, r, base), e)) == Some(e);
        assert Find(h, NextDigest(base, reg)) == Some(reg) by {
          HeightOfTip(h);
          HeightOfTip(WithReg(t, r, base));
        }
      }
    }
  }

  // ---- the state reconciliation aims at ----

  /** The outcome this record's settlement carries or is about to carry. */
  function DueOutcome(r: Record): Option<Outcome> {
    if r.settlement.Some? then BoundOutcome(r) else OutcomeOf(r)
  }

  /** The chain this record calls for. */
  function GoalHist(st: Store, h: Hist): Hist {
    if st.active.None? || st.active.value !in st.records then h else
    var t := st.active.value;
    var r := st.records[t];
    var base := BaseOf(st, h);
    if DueOutcome(r).Some? then WithSettle(t, r, base, DueOutcome(r).value) else WithReg(t, r, base)
  }

  function GoalRecord(t: Txid, r: Record, base: Hist): Record {
    r.(registration := Some(NextDigest(base, RegEntry(t, r))),
       settlement := if OutcomeOf(r).Some? then Tip(WithSettle(t, r, base, OutcomeOf(r).value)) else r.settlement)
  }

  /** The store this record calls for: the same record with both bindings it should have. */
  function GoalStore(st: Store, h: Hist): Store {
    if st.active.None? || st.active.value !in st.records then st else
    var t := st.active.value;
    Put(st, t, GoalRecord(t, st.records[t], BaseOf(st, h)))
  }

  /** Nothing left to repair is the goal reached, and deriving again finds nothing to do. */
  lemma NothingLeftIsGoal(st: Store, h: Hist)
    requires Agrees(st, h) && ActionsOk(st, h, Skip, Skip)
    ensures h == GoalHist(st, h) && st == GoalStore(st, h)
    ensures Derive(st, h) == Repairs(Skip, Skip)
  {
    DeriveSucceeds(st, h);
    if st.active.Some? {
      var t := st.active.value;
      assert GoalRecord(t, st.records[t], BaseOf(st, h)) == st.records[t];
    }
  }
}
