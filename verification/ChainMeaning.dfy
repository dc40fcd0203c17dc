/** The entry-class rules over positions in the chain: what each rule says of the entries below one, with no
    history, lookup or accumulated set in it.  */
module ChainMeaning {
  import opened ChainModel
  import opened ChainRules
  import opened Inspect
  import opened EntryClasses

  type Chain = seq<(Digest, Entry)>

  // ---- what lies below position `n` ----

  ghost predicate RegistersBelow(es: Chain, n: nat, t: Txid)
    requires n <= |es|
  {
    exists k :: 0 <= k < n && es[k].1.Registered? && es[k].1.txid == t
  }

  ghost predicate SettlesBelow(es: Chain, n: nat, t: Txid)
    requires n <= |es|
  {
    exists k :: 0 <= k < n && es[k].1.Settled? && es[k].1.txid == t
  }

  ghost predicate IntentBelow(es: Chain, n: nat, d: Digest)
    requires n <= |es|
  {
    exists k :: 0 <= k < n && es[k].0 == d && es[k].1.Intent?
  }

  ghost predicate RegistrationBelow(es: Chain, n: nat, d: Digest, t: Txid, fulfills: Option<Digest>)
    requires n <= |es|
  {
    exists k :: 0 <= k < n && es[k].0 == d && es[k].1.Registered? && es[k].1.txid == t && es[k].1.fulfills == fulfills
  }

  /** Position `m` holds a committing settlement of a registration below it that fulfills `d`. */
  ghost predicate FulfillsAt(es: Chain, m: nat, d: Digest)
    requires m < |es|
  {
    && es[m].1.Settled? && es[m].1.outcome == Committed
    && exists t :: RegistrationBelow(es, m, es[m].1.registration, t, Some(d))
  }

  ghost predicate FulfilledBelow(es: Chain, n: nat, d: Digest)
    requires n <= |es|
  {
    exists m :: 0 <= m < n && FulfillsAt(es, m, d)
  }

  // ---- the rules ----

  ghost predicate RegistrationStands(es: Chain, n: nat)
    requires n < |es| && es[n].1.Registered?
  {
    && !RegistersBelow(es, n, es[n].1.txid)
    && (es[n].1.fulfills.Some? ==> IntentBelow(es, n, es[n].1.fulfills.value))
  }

  ghost predicate SettlementStands(es: Chain, n: nat)
    requires n < |es| && es[n].1.Settled?
  {
    && !SettlesBelow(es, n, es[n].1.txid)
    && exists fulfills :: RegistrationBelow(es, n, es[n].1.registration, es[n].1.txid, fulfills)
         && (es[n].1.outcome == Committed && fulfills.Some? ==> !FulfilledBelow(es, n, fulfills.value))
  }

  ghost predicate Stands(es: Chain, n: nat)
    requires n < |es|
  {
    (es[n].1.Registered? ==> RegistrationStands(es, n)) && (es[n].1.Settled? ==> SettlementStands(es, n))
  }

  /** What is wrong with the entry at `n`, the first rule that fails naming it. */
  ghost predicate DefectAt(es: Chain, n: nat, kind: DefectKind)
    requires n < |es|
  {
    var e := es[n].1;
    match kind
    case DuplicateRegistration => e.Registered? && RegistersBelow(es, n, e.txid)
    case FulfillsUnresolved =>
      e.Registered? && !RegistersBelow(es, n, e.txid) && e.fulfills.Some? && !IntentBelow(es, n, e.fulfills.value)
    case SettlementWithoutRegistration =>
      e.Settled? && forall t, f :: !RegistrationBelow(es, n, e.registration, t, f)
    case SettlementTxidMismatch =>
      e.Settled? && exists t, f :: t != e.txid && RegistrationBelow(es, n, e.registration, t, f)
    case DuplicateSettlement =>
      e.Settled? && (exists f :: RegistrationBelow(es, n, e.registration, e.txid, f)) && SettlesBelow(es, n, e.txid)
    case DuplicateFulfillment =>
      && e.Settled? && e.outcome == Committed && !SettlesBelow(es, n, e.txid)
      && exists d :: RegistrationBelow(es, n, e.registration, e.txid, Some(d)) && FulfilledBelow(es, n, d)
    case _ => false
  }

  // ---- the accumulated sets are these ----

  lemma FindIsBelow(h: Hist, n: nat, d: Digest, e: Entry)
    requires n <= Length(h)
    ensures Find(Prefix(h, n), d) == Some(e) <==> exists k :: 0 <= k < n && Entries(h)[k] == (d, e)
  {
    FindAt(h, n, d);
    forall k | 0 <= k < n && Entries(h)[k].0 == d ensures Find(Prefix(h, n), d) == Some(Entries(h)[k].1) {
      FindHere(h, n, k);
    }
  }

  lemma {:induction false} RegisteredAreBelow(h: Hist, n: nat, t: Txid)
    requires n <= Length(h)
    ensures t in RegisteredTxids(Prefix(h, n)) <==> RegistersBelow(Entries(h), n, t)
    ensures t in SettledTxids(Prefix(h, n)) <==> SettlesBelow(Entries(h), n, t)
  {
    if n > 0 {
      RegisteredAreBelow(h, n - 1, t);
      PrefixStep(h, n - 1);
      var e := Entries(h)[n - 1].1;
      assert Prefix(h, n) == Snoc(Prefix(h, n - 1), e);
      assert RegistersBelow(Entries(h), n, t) <==> RegistersBelow(Entries(h), n - 1, t) || (e.Registered? && e.txid == t);
      assert SettlesBelow(Entries(h), n, t) <==> SettlesBelow(Entries(h), n - 1, t) || (e.Settled? && e.txid == t);
    }
  }

  lemma NamedRegistrationIsBelow(h: Hist, n: nat, e: Entry)
    requires n <= Length(h) && e.Settled?
    ensures forall t, f :: RegistrationBelow(Entries(h), n, e.registration, t, f) <==>
      var r := RegistrationOf(Prefix(h, n), e); r.Some? && r.value.Registered? && r.value.txid == t && r.value.fulfills == f
  {
    var es := Entries(h);
    FindAt(h, n, e.registration);
    forall k | 0 <= k < n && es[k].0 == e.registration ensures Find(Prefix(h, n), e.registration) == Some(es[k].1) {
      FindHere(h, n, k);
    }
  }

  lemma {:induction false} FulfilledAreBelow(h: Hist, n: nat, d: Digest)
    requires n <= Length(h)
    ensures d in Fulfilled(Prefix(h, n)) <==> FulfilledBelow(Entries(h), n, d)
  {
    if n > 0 {
      FulfilledAreBelow(h, n - 1, d);
      PrefixStep(h, n - 1);
      var e := Entries(h)[n - 1].1;
      if e.Settled? {
        NamedRegistrationIsBelow(h, n - 1, e);
        var r := RegistrationOf(Prefix(h, n - 1), e);
        if r.Some? {
          assert RegistrationBelow(Entries(h), n - 1, e.registration, r.value.txid, r.value.fulfills);
        }
      }
      assert FulfillsAt(Entries(h), n - 1, d) <==> FulfilledBy(Prefix(h, n - 1), e) == Some(d);
    }
  }

  lemma IntentIsBelow(h: Hist, n: nat, d: Digest)
    requires n <= Length(h)
    ensures IntentBelow(Entries(h), n, d) <==> Find(Prefix(h, n), d).Some? && Find(Prefix(h, n), d).value.Intent?
  {
    FindAt(h, n, d);
    forall k | 0 <= k < n && Entries(h)[k].0 == d ensures Find(Prefix(h, n), d) == Some(Entries(h)[k].1) {
      FindHere(h, n, k);
    }
  }

  // ---- cleanliness and the first defect, position by position ----

  lemma RulesAt(h: Hist, n: nat)
    requires n < Length(h)
    ensures EntryOk(Prefix(h, n), Entries(h)[n].1) <==> Stands(Entries(h), n)
  {
    var e := Entries(h)[n].1;
    if e.Registered? {
      RegisteredAreBelow(h, n, e.txid);
      if e.fulfills.Some? {
        IntentIsBelow(h, n, e.fulfills.value);
      }
    } else if e.Settled? {
      RegisteredAreBelow(h, n, e.txid);
      NamedRegistrationIsBelow(h, n, e);
      var r := RegistrationOf(Prefix(h, n), e);
      if r.Some? && r.value.fulfills.Some? {
        FulfilledAreBelow(h, n, r.value.fulfills.value);
      }
      if r.Some? {
        assert RegistrationBelow(Entries(h), n, e.registration, r.value.txid, r.value.fulfills);
      }
    }
  }

  /** A history is clean when every entry stands where it is. */
  lemma {:induction false} CleanIsPositional(h: Hist, n: nat)
    requires n <= Length(h)
    ensures Clean(Prefix(h, n)) <==> forall k :: 0 <= k < n ==> Stands(Entries(h), k)
  {
    if n > 0 {
      CleanIsPositional(h, n - 1);
      PrefixStep(h, n - 1);
      RulesAt(h, n - 1);
    }
  }

  lemma RegistrationDefectAt(h: Hist, n: nat, kind: DefectKind)
    requires n < Length(h) && Entries(h)[n].1.Registered?
    ensures EntryDefect(Prefix(h, n), Entries(h)[n].1) == Some(kind) <==> DefectAt(Entries(h), n, kind)
  {
    var e := Entries(h)[n].1;
    RegisteredAreBelow(h, n, e.txid);
    if e.fulfills.Some? {
      IntentIsBelow(h, n, e.fulfills.value);
    }
  }

  lemma SettlementDefectAt(h: Hist, n: nat, kind: DefectKind)
    requires n < Length(h) && Entries(h)[n].1.Settled?
    ensures EntryDefect(Prefix(h, n), Entries(h)[n].1) == Some(kind) <==> DefectAt(Entries(h), n, kind)
  {
    var e := Entries(h)[n].1;
    RegisteredAreBelow(h, n, e.txid);
    NamedRegistrationIsBelow(h, n, e);
    var r := RegistrationOf(Prefix(h, n), e);
    if r.Some? {
      assert RegistrationBelow(Entries(h), n, e.registration, r.value.txid, r.value.fulfills);
      if r.value.fulfills.Some? {
        FulfilledAreBelow(h, n, r.value.fulfills.value);
      }
    }
  }

  lemma DefectsAt(h: Hist, n: nat, kind: DefectKind)
    requires n < Length(h)
    ensures EntryDefect(Prefix(h, n), Entries(h)[n].1) == Some(kind) <==> DefectAt(Entries(h), n, kind)
  {
    if Entries(h)[n].1.Registered? {
      RegistrationDefectAt(h, n, kind);
    } else if Entries(h)[n].1.Settled? {
      SettlementDefectAt(h, n, kind);
    }
  }

  /** The defect reported is that of the lowest entry that does not stand. */
  lemma {:induction false} FirstDefectIsPositional(h: Hist, n: nat, kind: DefectKind)
    requires n <= Length(h)
    ensures FirstDefect(Prefix(h, n)) == Some(kind) <==>
      exists k :: 0 <= k < n && DefectAt(Entries(h), k, kind) && forall j :: 0 <= j < k ==> Stands(Entries(h), j)
  {
    if n > 0 {
      FirstDefectIsPositional(h, n - 1, kind);
      PrefixStep(h, n - 1);
      DefectsAt(h, n - 1, kind);
      CleanIsPositional(h, n - 1);
      NoDefectIsClean(Prefix(h, n - 1));
    }
  }

  // ---- what follows for readers of a chain ----

  /** In a clean chain whatever is fulfilled is an intent that is there. */
  lemma FulfilledAreIntents(h: Hist, d: Digest)
    requires Clean(h) && d in Fulfilled(h)
    ensures Find(h, d).Some? && Find(h, d).value.Intent?
  {
    var es, n := Entries(h), Length(h);
    FulfilledAreBelow(h, n, d);
    CleanIsPositional(h, n);
    var m :| 0 <= m < n && FulfillsAt(es, m, d);
    var t :| RegistrationBelow(es, m, es[m].1.registration, t, Some(d));
    var k :| 0 <= k < m && es[k].1.Registered? && es[k].1.fulfills == Some(d);
    assert Stands(es, k);
    assert IntentBelow(es, n, d);
    IntentIsBelow(h, n, d);
  }

  /** So is whatever a registration in it says it fulfills, and the intent is below the registration. */
  lemma RegistrationsFulfillIntents(h: Hist, k: nat)
    requires Clean(h) && k < Length(h) && Entries(h)[k].1.Registered? && Entries(h)[k].1.fulfills.Some?
    ensures exists j :: 0 <= j < k && Entries(h)[j].0 == Entries(h)[k].1.fulfills.value && Entries(h)[j].1.Intent?
  {
    CleanIsPositional(h, Length(h));
    assert Stands(Entries(h), k);
  }

  /** The submission gate accepts exactly an intent that is in the chain and that no committed transaction
      has fulfilled.  */
  lemma GateIsPositional(h: Hist, fulfills: Option<Digest>)
    ensures Gate(h, fulfills) <==>
      fulfills.None? || (IntentBelow(Entries(h), Length(h), fulfills.value) && !FulfilledBelow(Entries(h), Length(h), fulfills.value))
  {
    if fulfills.Some? {
      IntentIsBelow(h, Length(h), fulfills.value);
      FulfilledAreBelow(h, Length(h), fulfills.value);
    }
  }

  /** What is pending is registered and not settled, as often as it is registered and in that order: `at`
      lists the positions.  */
  lemma {:induction false} UnsettledArePositions(es: Chain, settled: set<Txid>) returns (at: seq<nat>)
    ensures |Unsettled(es, settled)| == |at|
    ensures forall i :: 0 <= i < |at| ==> at[i] < |es| && es[at[i]].1.Registered? && Unsettled(es, settled)[i] == (es[at[i]].1.txid, es[at[i]].0)
    ensures forall i, j :: 0 <= i < j < |at| ==> at[i] < at[j]
    ensures forall k :: 0 <= k < |es| ==> (k in at <==> es[k].1.Registered? && es[k].1.txid !in settled)
    decreases |es|
  {
    at := [];
    if es != [] {
      var n := |es| - 1;
      at := UnsettledArePositions(es[..n], settled);
      var before := at;
      if es[n].1.Registered? && es[n].1.txid !in settled {
        at := at + [n];
      }
      forall k | 0 <= k < |es| ensures k in at <==> es[k].1.Registered? && es[k].1.txid !in settled {
        if k < n {
          assert es[..n][k] == es[k];
          assert k in at <==> k in before;
        } else {
          assert n !in before;
        }
      }
    }
  }
}
