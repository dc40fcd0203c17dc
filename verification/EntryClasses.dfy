/** Pass 3 and the gates that read a linearized chain, as loops over its entries, each proved equal
    to its meaning on the history.  */
module EntryClasses {
  import opened ChainModel
  import opened ChainRules
  import opened Inspect

  /** The linearization of a history: digest and entry, genesis first. */
  function Entries(h: Hist): (es: seq<(Digest, Entry)>)
    ensures |es| == Length(h)
  {
    match h
    case Empty => []
    case Snoc(init, last) => Entries(init) + [(NextDigest(init, last), last)]
  }

  /** The history of the first `n` entries. */
  function Prefix(h: Hist, n: nat): (p: Hist)
    requires n <= Length(h)
    ensures Length(p) == n
  {
    if n == Length(h) then h else Prefix(h.init, n)
  }

  lemma {:induction false} PrefixStep(h: Hist, n: nat)
    requires n < Length(h)
    ensures Prefix(h, n + 1) == Snoc(Prefix(h, n), Entries(h)[n].1)
    ensures Entries(h)[n].0 == NextDigest(Prefix(h, n), Entries(h)[n].1)
  {
    if n < Length(h) - 1 {
      PrefixStep(h.init, n);
    }
  }

  /** Looking a digest up among the first `n` entries finds the entry at its one position. */
  lemma {:induction false} FindAt(h: Hist, n: nat, d: Digest)
    requires n <= Length(h)
    ensures Find(Prefix(h, n), d).Some? ==>
      exists k :: 0 <= k < n && Entries(h)[k] == (d, Find(Prefix(h, n), d).value)
    ensures Find(Prefix(h, n), d).None? ==> forall k :: 0 <= k < n ==> Entries(h)[k].0 != d
  {
    if n > 0 {
      PrefixStep(h, n - 1);
      FindAt(h, n - 1, d);
    }
  }

  lemma {:induction false} DigestsDiffer(h: Hist, i: nat, j: nat)
    requires i < j < Length(h)
    ensures Entries(h)[i].0 != Entries(h)[j].0
  {
    PrefixStep(h, j);
    NextDigestIsFresh(Prefix(h, j), Entries(h)[j].1);
    FindAt(h, j, Entries(h)[i].0);
    FindMatchesDigests(Prefix(h, j), Entries(h)[i].0);
  }

  lemma FindHere(h: Hist, n: nat, k: nat)
    requires k < n <= Length(h)
    ensures Find(Prefix(h, n), Entries(h)[k].0) == Some(Entries(h)[k].1)
  {
    FindAt(h, n, Entries(h)[k].0);
    forall j | 0 <= j < n && j != k ensures Entries(h)[j].0 != Entries(h)[k].0 {
      if j < k { DigestsDiffer(h, j, k); } else { DigestsDiffer(h, k, j); }
    }
  }

  // ---- the first defect ----

  function EntryDefect(h: Hist, e: Entry): Option<DefectKind> {
    match e
    case Registered(txid, _, fulfills) =>
      if txid in RegisteredTxids(h) then Some(DuplicateRegistration)
      else if !ReferentOk(h, fulfills) then Some(FulfillsUnresolved)
      else None
    case Settled(txid, _, _) =>
      if RegistrationOf(h, e).None? then Some(SettlementWithoutRegistration)
      else if RegistrationOf(h, e).value.txid != txid then Some(SettlementTxidMismatch)
      else if txid in SettledTxids(h) then Some(DuplicateSettlement)
      else if FulfilledBy(h, e).Some? && FulfilledBy(h, e).value in Fulfilled(h) then Some(DuplicateFulfillment)
      else None
    case _ => None
  }

  function FirstDefect(h: Hist): Option<DefectKind> {
    match h
    case Empty => None
    case Snoc(init, last) => if FirstDefect(init).Some? then FirstDefect(init) else EntryDefect(init, last)
  }

  lemma {:induction false} NoDefectIsClean(h: Hist)
    ensures FirstDefect(h).None? <==> Clean(h)
  {
    if h.Snoc? {
      NoDefectIsClean(h.init);
    }
  }

  lemma {:induction false} DefectPersists(h: Hist, n: nat)
    requires n <= Length(h) && FirstDefect(Prefix(h, n)).Some?
    ensures FirstDefect(h) == FirstDefect(Prefix(h, n))
  {
    if n < Length(h) {
      DefectPersists(h.init, n);
    }
  }

  // ---- the loops ----

  datatype Fault = MissingReferent | NonAncestor | NonIntent

  /** `fulfills_fault`: no fault exactly when the referent is an intent below `index`. */
  method FulfillsFault(entries: seq<(Digest, Entry)>, index: nat, fulfills: Digest, ghost h: Hist) returns (fault: Option<Fault>)
    requires entries == Entries(h) && index <= |entries|
    ensures fault.None? <==> ReferentOk(Prefix(h, index), Some(fulfills))
    ensures fault == Some(MissingReferent) <==> Find(h, fulfills).None?
    ensures fault == Some(NonAncestor) <==> Find(h, fulfills).Some? && Find(Prefix(h, index), fulfills).None?
    ensures fault == Some(NonIntent) <==> Find(Prefix(h, index), fulfills).Some? && !Find(Prefix(h, index), fulfills).value.Intent?
  {
    FindAt(h, index, fulfills);
    FindAt(h, Length(h), fulfills);
    for position := 0 to |entries|
      invariant forall k :: 0 <= k < position ==> entries[k].0 != fulfills
    {
      var (digest, entry) := entries[position];
      if digest == fulfills {
        FindHere(h, Length(h), position);
        if position >= index {
          return Some(NonAncestor);
        }
        FindHere(h, index, position);
        return if entry.Intent? then None else Some(NonIntent);
      }
    }
    return Some(MissingReferent);
  }

  method IndexOf(entries: seq<(Digest, Entry)>, ghost h: Hist) returns (index: map<Digest, nat>)
    requires entries == Entries(h)
    ensures forall d :: d in index ==> index[d] < |entries| && entries[index[d]].0 == d
    ensures forall k :: 0 <= k < |entries| ==> entries[k].0 in index && index[entries[k].0] == k
  {
    index := map[];
    for i := 0 to |entries|
      invariant forall d :: d in index ==> index[d] < i && entries[index[d]].0 == d
      invariant forall k :: 0 <= k < i ==> entries[k].0 in index && index[entries[k].0] == k
    {
      forall k | 0 <= k < i ensures entries[k].0 != entries[i].0 {
        DigestsDiffer(h, k, i);
      }
      index := index[entries[i].0 := i];
    }
  }

  /** The ancestor registration a settlement at `position` names. */
  method FindRegistration(entries: seq<(Digest, Entry)>, index: map<Digest, nat>, position: nat, e: Entry, ghost h: Hist)
    returns (registration: Option<Entry>)
    requires entries == Entries(h) && position <= |entries| && e.Settled?
    requires forall d :: d in index ==> index[d] < |entries| && entries[index[d]].0 == d
    requires forall k :: 0 <= k < |entries| ==> entries[k].0 in index && index[entries[k].0] == k
    ensures registration == RegistrationOf(Prefix(h, position), e)
  {
    FindAt(h, position, e.registration);
    if e.registration !in index || index[e.registration] >= position {
      return None;
    }
    var k := index[e.registration];
    FindHere(h, position, k);
    return if entries[k].1.Registered? then Some(entries[k].1) else None;
  }

  /** Pass 3: exactly the first defect in index order, so none exactly on a clean history. */
  method InspectEntryClasses(entries: seq<(Digest, Entry)>, ghost h: Hist) returns (defect: Option<DefectKind>)
    requires entries == Entries(h)
    ensures defect == FirstDefect(h)
  {
    var index := IndexOf(entries, h);
    var registered: set<Txid>, settled: set<Txid>, fulfilled: set<Digest> := {}, {}, {};
    for i := 0 to |entries|
      invariant registered == RegisteredTxids(Prefix(h, i))
      invariant settled == SettledTxids(Prefix(h, i))
      invariant fulfilled == Fulfilled(Prefix(h, i))
      invariant FirstDefect(Prefix(h, i)).None?
    {
      var (digest, entry) := entries[i];
      PrefixStep(h, i);
      ghost var here := Prefix(h, i);
      defect := None;
      match entry {
        case Registered(txid, _, fulfills) =>
          if txid in registered {
            defect := Some(DuplicateRegistration);
          } else {
            registered := registered + {txid};
            if fulfills.Some? {
              var fault := FulfillsFault(entries, i, fulfills.value, h);
              if fault.Some? {
                defect := Some(FulfillsUnresolved);
              }
            }
          }
        case Settled(txid, _, outcome) =>
          var registration := FindRegistration(entries, index, i, entry, h);
          if registration.None? {
            defect := Some(SettlementWithoutRegistration);
          } else if registration.value.txid != txid {
            defect := Some(SettlementTxidMismatch);
          } else if txid in settled {
            defect := Some(DuplicateSettlement);
          } else {
            settled := settled + {txid};
            if outcome.Committed? && registration.value.fulfills.Some? {
              if registration.value.fulfills.value in fulfilled {
                defect := Some(DuplicateFulfillment);
              } else {
                fulfilled := fulfilled + {registration.value.fulfills.value};
              }
            }
          }
        case _ =>
      }
      assert defect == EntryDefect(here, entry);
      if defect.Some? {
        DefectPersists(h, i + 1);
        return;
      }
    }
    return None;
  }

  /** The registrations among `entries` of transactions not in `settled`, in order and each as often as it stands. */
  function Unsettled(entries: seq<(Digest, Entry)>, settled: set<Txid>): (pending: seq<(Txid, Digest)>) {
    if entries == [] then []
    else
      var (digest, entry) := entries[|entries| - 1];
      Unsettled(entries[..|entries| - 1], settled)
      + (if entry.Registered? && entry.txid !in settled then [(entry.txid, digest)] else [])
  }

  /** `_pending_of`: in chain order, exactly the registrations no settlement settles. */
  method PendingOf(entries: seq<(Digest, Entry)>, ghost h: Hist) returns (pending: seq<(Txid, Digest)>)
    requires entries == Entries(h)
    ensures pending == Unsettled(entries, SettledTxids(h))
    ensures (set p | p in pending :: p.0) == PendingTxids(h)
  {
    var settled: set<Txid> := {};
    for i := 0 to |entries|
      invariant settled == SettledTxids(Prefix(h, i))
    {
      PrefixStep(h, i);
      if entries[i].1.Settled? {
        settled := settled + {entries[i].1.txid};
      }
    }
    pending := [];
    for i := 0 to |entries|
      invariant (set p | p in pending :: p.0) == RegisteredTxids(Prefix(h, i)) - settled
      invariant pending == Unsettled(entries[..i], settled)
    {
      PrefixStep(h, i);
      var (digest, entry) := entries[i];
      assert entries[..i + 1][..i] == entries[..i];
      if entry.Registered? && entry.txid !in settled {
        ghost var before := pending;
        pending := pending + [(entry.txid, digest)];
        assert (set p | p in pending :: p.0) == (set p | p in before :: p.0) + {entry.txid};
      }
    }
    assert entries[..|entries|] == entries;
  }

  /** A settlement's registration is the same looked up in the whole clean chain as among its ancestors. */
  lemma RegistrationIsAncestor(h: Hist, n: nat)
    requires Clean(h) && n < Length(h) && Entries(h)[n].1.Settled?
    ensures RegistrationOf(h, Entries(h)[n].1) == RegistrationOf(Prefix(h, n), Entries(h)[n].1)
    ensures RegistrationOf(h, Entries(h)[n].1).Some?
  {
    var e := Entries(h)[n].1;
    PrefixStep(h, n);
    CleanPrefix(h, n + 1);
    FindAt(h, n, e.registration);
    var k :| 0 <= k < n && Entries(h)[k] == (e.registration, Find(Prefix(h, n), e.registration).value);
    FindHere(h, Length(h), k);
  }

  lemma {:induction false} CleanPrefix(h: Hist, n: nat)
    requires Clean(h) && n <= Length(h)
    ensures Clean(Prefix(h, n))
  {
    if n < Length(h) {
      CleanPrefix(h.init, n);
    }
  }

  /** `committed_fulfillments`, on a chain that passed validation. */
  method CommittedFulfillments(entries: seq<(Digest, Entry)>, ghost h: Hist) returns (fulfilled: set<Digest>)
    requires entries == Entries(h) && Clean(h)
    ensures fulfilled == Fulfilled(h)
  {
    var index := IndexOf(entries, h);
    fulfilled := {};
    for i := 0 to |entries|
      invariant fulfilled == Fulfilled(Prefix(h, i))
    {
      PrefixStep(h, i);
      var entry := entries[i].1;
      if entry.Settled? && entry.outcome.Committed? {
        RegistrationIsAncestor(h, i);
        var registration := FindRegistration(entries, index, |entries|, entry, h);
        if registration.Some? && registration.value.fulfills.Some? {
          fulfilled := fulfilled + {registration.value.fulfills.value};
        }
      }
    }
  }

  /** `_require_admissible_fulfills`: the two submission checks are exactly the gate. */
  method AdmissibleFulfills(entries: seq<(Digest, Entry)>, fulfills: Option<Digest>, ghost h: Hist) returns (ok: bool)
    requires entries == Entries(h) && Clean(h)
    ensures ok <==> Gate(h, fulfills)
  {
    if fulfills.None? {
      return true;
    }
    var fault := FulfillsFault(entries, |entries|, fulfills.value, h);
    if fault.Some? {
      return false;
    }
    var fulfilled := CommittedFulfillments(entries, h);
    return fulfills.value !in fulfilled;
  }
}
