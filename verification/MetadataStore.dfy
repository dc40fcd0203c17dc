/** The metadata store's write transaction: a barrier that checks only the records it touched, a poison
    flag that no caught failure escapes, and the blob index kept equal to what records reference.  */
module MetadataStore {
  import opened ChainModel
  import opened RecordStore

  type EffectId = string
  type Hash = string
  type Variant = string

  /** What the store reads off a stored specification. */
  datatype Spec = Spec(effects: map<EffectId, Variant>, files: set<(Hash, nat)>, compiles: bool)

  datatype Diagnostic = Diagnostic(committed: bool, journals: map<EffectId, Journal>)

  datatype Row = Row(spec: Spec, state: TxState, committed: bool, rolledBack: bool, diagnostic: Option<Diagnostic>,
                     registration: Option<Hash>, settlement: Option<Hash>, assemblyHalt: bool)

  datatype EffectRow = EffectRow(variant: Variant, journal: Journal)

  datatype Db = Db(
    records: map<Txid, Row>,
    effects: map<Txid, map<EffectId, EffectRow>>,
    blobs: map<Hash, nat>,
    active: Option<Txid>)

  function EffectsOf(db: Db, t: Txid): map<EffectId, EffectRow> {
    if t in db.effects then db.effects[t] else map[]
  }

  function JournalsOf(rows: map<EffectId, EffectRow>): map<EffectId, Journal> {
    map e | e in rows :: rows[e].journal
  }

  function DigestsOf(spec: Spec): set<Hash> {
    set f | f in spec.files :: f.0
  }

  predicate ActiveHasRecord(db: Db) {
    db.active.Some? ==> db.active.value in db.records
  }

  predicate RowCoherent(r: Row, rows: map<EffectId, EffectRow>, blobs: map<Hash, nat>) {
    && r.spec.compiles
    && rows.Keys == r.spec.effects.Keys
    && (forall e :: e in rows ==> e in r.spec.effects && rows[e].variant == r.spec.effects[e])
    && (forall f :: f in r.spec.files ==> f.0 in blobs && blobs[f.0] == f.1)
    && (r.state.RolledBackState? <==> r.rolledBack)
    && (r.state.Halted? <==> r.diagnostic.Some?)
    && (r.diagnostic.Some? ==>
          r.diagnostic.value.committed == r.committed && r.diagnostic.value.journals == JournalsOf(rows))
  }

  /** `coherence_findings` comes back empty. */
  predicate Coherent(db: Db, t: Txid) {
    && ActiveHasRecord(db)
    && (t in db.records ==> RowCoherent(db.records[t], EffectsOf(db, t), db.blobs))
  }

  ghost function Referenced(db: Db): set<Hash> {
    set t, h | t in db.records && h in DigestsOf(db.records[t].spec) :: h
  }

  /** What must hold of every committed database. */
  ghost predicate Sound(db: Db, leaves: set<Hash>) {
    && (forall t :: Coherent(db, t))
    && db.blobs.Keys == Referenced(db)
    && db.blobs.Keys <= leaves
  }

  /** How far an unpoisoned transaction can have moved from the committed database. */
  ghost predicate Within(d: Db, w: Db, touched: set<Txid>, promoted: map<Txid, set<Hash>>) {
    && d.records.Keys <= w.records.Keys
    && (forall t :: t in d.records ==> w.records[t].spec == d.records[t].spec)
    && (forall t :: t in w.records && t !in touched ==>
          t in d.records && w.records[t] == d.records[t] && EffectsOf(w, t) == EffectsOf(d, t))
    && (forall h :: h in d.blobs ==> h in w.blobs && w.blobs[h] == d.blobs[h])
    && (forall h :: h in w.blobs && h !in d.blobs ==> exists t :: t in promoted && h in promoted[t])
    && (w.active == d.active || w.active.None? || w.active.value in touched)
  }

  predicate PromotedReferenced(w: Db, promoted: map<Txid, set<Hash>>) {
    forall t :: t in promoted ==> promoted[t] <= if t in w.records then DigestsOf(w.records[t].spec) else {}
  }

  /** A digest is a specification's when one of its files has it. */
  lemma DigestsAreFiles(spec: Spec, h: Hash)
    ensures h in DigestsOf(spec) <==> exists n :: (h, n) in spec.files
  {
    if h in DigestsOf(spec) {
      var f :| f in spec.files && f.0 == h;
      assert f == (h, f.1);
    }
    if exists n :: (h, n) in spec.files {
      var n :| (h, n) in spec.files;
      assert (h, n).0 in DigestsOf(spec);
    }
  }

  lemma ReferencedAreFiles(db: Db, h: Hash)
    ensures h in Referenced(db) <==> exists t, n :: t in db.records && (h, n) in db.records[t].spec.files
  {
    forall t | t in db.records ensures h in DigestsOf(db.records[t].spec) <==> exists n :: (h, n) in db.records[t].spec.files {
      DigestsAreFiles(db.records[t].spec, h);
    }
  }

  lemma PromotedAreFiles(w: Db, promoted: map<Txid, set<Hash>>)
    ensures PromotedReferenced(w, promoted) <==>
      forall t, h :: t in promoted && h in promoted[t] ==> t in w.records && exists n :: (h, n) in w.records[t].spec.files
  {
    forall t, h | t in w.records ensures h in DigestsOf(w.records[t].spec) <==> exists n :: (h, n) in w.records[t].spec.files {
      DigestsAreFiles(w.records[t].spec, h);
    }
    if PromotedReferenced(w, promoted) {
      forall t, h | t in promoted && h in promoted[t] ensures t in w.records && h in DigestsOf(w.records[t].spec) {}
    }
  }

  /** Checking the touched records, and that promoted digests are referenced, is enough for all of them. */
  lemma BarrierSuffices(d: Db, w: Db, touched: set<Txid>, promoted: map<Txid, set<Hash>>, leaves: set<Hash>)
    requires Sound(d, leaves) && Within(d, w, touched, promoted)
    requires forall t :: t in touched ==> Coherent(w, t)
    requires PromotedReferenced(w, promoted) && w.blobs.Keys <= leaves
    ensures Sound(w, leaves)
  {
    assert ActiveHasRecord(w) by {
      if w.active.Some? && w.active.value in touched {
        assert Coherent(w, w.active.value);
      } else if w.active.Some? {
        assert Coherent(d, w.active.value);
      }
    }
    forall t ensures Coherent(w, t) {
      if t in w.records && t !in touched {
        assert Coherent(d, t);
      }
    }
    forall h ensures h in w.blobs <==> h in Referenced(w) {
      if h in Referenced(w) {
        var t :| t in w.records && h in DigestsOf(w.records[t].spec);
        assert Coherent(w, t);
      }
      if h in w.blobs && h in d.blobs {
        assert h in Referenced(d);
        var t :| t in d.records && h in DigestsOf(d.records[t].spec);
        assert h in DigestsOf(w.records[t].spec);
      }
    }
  }

  /** `INSERT ... ON CONFLICT DO NOTHING` for every entry of a manifest. */
  function Indexed(w: Db, manifest: map<Hash, nat>): Db {
    w.(blobs := manifest + w.blobs)
  }

  function AddPromoted(promoted: map<Txid, set<Hash>>, t: Txid, digests: set<Hash>): map<Txid, set<Hash>> {
    promoted[t := (if t in promoted then promoted[t] else {}) + digests]
  }

  lemma PromotionStaysWithin(d: Db, w: Db, touched: set<Txid>, promoted: map<Txid, set<Hash>>, t: Txid, manifest: map<Hash, nat>)
    ensures Within(d, w, touched, promoted) ==>
      Within(d, Indexed(w, manifest), touched + {t}, AddPromoted(promoted, t, manifest.Keys))
  {
    var w', promoted' := Indexed(w, manifest), AddPromoted(promoted, t, manifest.Keys);
    if Within(d, w, touched, promoted) {
      forall h | h in w'.blobs && h !in d.blobs
        ensures exists u :: u in promoted' && h in promoted'[u]
      {
        if h in w.blobs {
          var u :| u in promoted && h in promoted[u];
          assert h in promoted'[u];
        } else {
          assert h in promoted'[t];
        }
      }
    }
  }

  /** A record column a setter writes. */
  datatype Change =
    | ToState(state: TxState)
    | ToCommitted(committed: bool)
    | ToRolledBack
    | ToDiagnostic(diagnostic: Diagnostic)
    | ToRegistration(digest: Hash)
    | ToSettlement(digest: Hash)
    | ToAssemblyHalt

  function Changed(r: Row, c: Change): Row {
    match c
    case ToState(s) => r.(state := s)
    case ToCommitted(b) => r.(committed := b)
    case ToRolledBack => r.(rolledBack := true)
    case ToDiagnostic(d) => r.(diagnostic := Some(d))
    case ToRegistration(d) => r.(registration := Some(d))
    case ToSettlement(d) => r.(settlement := Some(d))
    case ToAssemblyHalt => r.(assemblyHalt := true)
  }

  /** Each setter puts its value in its own column and leaves the others. */
  lemma ColumnWrites(r: Row, c: Change)
    ensures c.ToState? ==>
      Changed(r, c) == Row(r.spec, c.state, r.committed, r.rolledBack, r.diagnostic, r.registration, r.settlement, r.assemblyHalt)
    ensures c.ToCommitted? ==>
      Changed(r, c) == Row(r.spec, r.state, c.committed, r.rolledBack, r.diagnostic, r.registration, r.settlement, r.assemblyHalt)
    ensures c.ToRolledBack? ==>
      Changed(r, c) == Row(r.spec, r.state, r.committed, true, r.diagnostic, r.registration, r.settlement, r.assemblyHalt)
    ensures c.ToDiagnostic? ==>
      Changed(r, c) == Row(r.spec, r.state, r.committed, r.rolledBack, Some(c.diagnostic), r.registration, r.settlement, r.assemblyHalt)
    ensures c.ToRegistration? ==>
      Changed(r, c) == Row(r.spec, r.state, r.committed, r.rolledBack, r.diagnostic, Some(c.digest), r.settlement, r.assemblyHalt)
    ensures c.ToSettlement? ==>
      Changed(r, c) == Row(r.spec, r.state, r.committed, r.rolledBack, r.diagnostic, r.registration, Some(c.digest), r.assemblyHalt)
    ensures c.ToAssemblyHalt? ==>
      Changed(r, c) == Row(r.spec, r.state, r.committed, r.rolledBack, r.diagnostic, r.registration, r.settlement, true)
  {
  }

  /** Both digests, stored in either order, stand in their own columns. */
  lemma DigestsKeepApart(r: Row, d: Hash, g: Hash)
    ensures Changed(Changed(r, ToRegistration(d)), ToSettlement(g)) == Changed(Changed(r, ToSettlement(g)), ToRegistration(d))
    ensures Changed(Changed(r, ToRegistration(d)), ToSettlement(g)).registration == Some(d)
    ensures Changed(Changed(r, ToRegistration(d)), ToSettlement(g)).settlement == Some(g)
  {
  }

  // ---- what the commit check demands ----

  /** A record just inserted commits exactly when its specification compiles and each of its files is indexed
      with its length.  */
  lemma FreshRecordCommits(spec: Spec, blobs: map<Hash, nat>)
    ensures RowCoherent(Row(spec, Prepared, false, false, None, None, None, false),
                        map e | e in spec.effects :: EffectRow(spec.effects[e], Pending), blobs)
      <==> spec.compiles && forall h, n :: (h, n) in spec.files ==> h in blobs && blobs[h] == n
  {
    var rows := map e | e in spec.effects :: EffectRow(spec.effects[e], Pending);
    assert rows.Keys == spec.effects.Keys;
    assert forall f :: f in spec.files ==> f == (f.0, f.1);
  }

  /** Which single column writes a commit would refuse: a state that needs or drops a rollback result or a
      diagnostic, a result or a diagnostic without its state, and a decision or a diagnostic that disagree.  */
  lemma WritesThatNeedCompany(r: Row, rows: map<EffectId, EffectRow>, blobs: map<Hash, nat>, c: Change)
    requires RowCoherent(r, rows, blobs)
    ensures c.ToState? ==>
      (RowCoherent(Changed(r, c), rows, blobs) <==>
        (c.state == RolledBackState <==> r.state == RolledBackState) && (c.state == Halted <==> r.state == Halted))
    ensures c.ToCommitted? ==> (RowCoherent(Changed(r, c), rows, blobs) <==> r.state != Halted || c.committed == r.committed)
    ensures c.ToRolledBack? ==> (RowCoherent(Changed(r, c), rows, blobs) <==> r.state == RolledBackState)
    ensures c.ToDiagnostic? ==>
      (RowCoherent(Changed(r, c), rows, blobs) <==>
        && r.state == Halted && c.diagnostic.committed == r.committed && c.diagnostic.journals.Keys == rows.Keys
        && forall e :: e in rows ==> c.diagnostic.journals[e] == rows[e].journal)
    ensures c.ToRegistration? || c.ToSettlement? || c.ToAssemblyHalt? ==> RowCoherent(Changed(r, c), rows, blobs)
  {
  }

  /** A halted record's journals cannot move by themselves. */
  lemma HaltPinsJournals(r: Row, rows: map<EffectId, EffectRow>, blobs: map<Hash, nat>, e: EffectId, journal: Journal)
    requires RowCoherent(r, rows, blobs) && e in rows
    ensures RowCoherent(r, rows[e := rows[e].(journal := journal)], blobs) <==> r.state != Halted || journal == rows[e].journal
  {
    var moved := rows[e := rows[e].(journal := journal)];
    assert moved.Keys == rows.Keys;
    assert JournalsOf(moved)[e] == journal && JournalsOf(rows)[e] == rows[e].journal;
    if r.state != Halted || journal == rows[e].journal {
      assert journal == rows[e].journal ==> moved == rows;
    }
  }

  /** What every committed record satisfies. */
  lemma CommittedRecordsMean(db: Db, leaves: set<Hash>, t: Txid)
    requires Sound(db, leaves) && t in db.records
    ensures db.active.Some? ==> db.active.value in db.records
    ensures var r, rows := db.records[t], EffectsOf(db, t);
      && r.spec.compiles && rows.Keys == r.spec.effects.Keys
      && (forall e :: e in rows ==> rows[e].variant == r.spec.effects[e])
      && (forall h, n :: (h, n) in r.spec.files ==> h in db.blobs && db.blobs[h] == n && h in leaves)
      && (r.rolledBack <==> r.state == RolledBackState)
      && (r.diagnostic.Some? <==> r.state == Halted)
      && (r.diagnostic.Some? ==>
            && r.diagnostic.value.committed == r.committed && r.diagnostic.value.journals.Keys == rows.Keys
            && forall e :: e in rows ==> r.diagnostic.value.journals[e] == rows[e].journal)
  {
    assert Coherent(db, t);
    assert RowCoherent(db.records[t], EffectsOf(db, t), db.blobs);
  }

  /** No digest of the manifest is indexed with another length. */
  predicate LengthsAgree(w: Db, manifest: map<Hash, nat>) {
    forall h :: h in manifest && h in w.blobs ==> w.blobs[h] == manifest[h]
  }

  /** The handle a transaction body holds. */
  class Transaction {
    var spent: bool
    var touched: set<Txid>
    var promoted: map<Txid, set<Hash>>
    var poisoned: bool

    constructor ()
      ensures !spent && !poisoned && touched == {} && promoted == map[]
    {
      spent, poisoned, touched, promoted := false, false, {}, map[];
    }
  }

  class Store {
    var durable: Db
    var work: Db
    var leaves: set<Hash>
    var current: Transaction?

    ghost predicate Valid()
      reads this, current
    {
      && Sound(durable, leaves)
      && (current == null ==> work == durable)
      && (current != null ==>
            && !current.spent
            && (!current.poisoned ==>
                  Within(durable, work, current.touched, current.promoted) && work.blobs.Keys <= leaves))
    }

    constructor ()
      ensures Valid() && current == null && durable == Db(map[], map[], map[], None)
    {
      durable := Db(map[], map[], map[], None);
      work := Db(map[], map[], map[], None);
      leaves := {};
      current := null;
    }

    /** The handle is this store's current transaction. */
    predicate Current(txn: Transaction)
      reads this, txn
    {
      !txn.spent && current == txn
    }

    /** A second transaction is refused while one is open. */
    method Begin() returns (txn: Transaction?)
      requires Valid()
      modifies this
      ensures Valid() && durable == old(durable) && leaves == old(leaves) && work == old(work)
      ensures txn == null <==> old(current) != null
      ensures txn != null ==> fresh(txn) && current == txn && !txn.poisoned
      ensures txn == null ==> current == old(current)
    {
      if current != null {
        return null;
      }
      txn := new Transaction();
      current := txn;
    }

    /** Insert the record, then its effect rows one by one; a failing row leaves the earlier writes behind
        and poisons the transaction.  */
    method InsertRecord(txn: Transaction, t: Txid, spec: Spec, failing: set<EffectId>) returns (ok: bool)
      requires Valid()
      modifies this, txn
      ensures Valid() && durable == old(durable) && leaves == old(leaves) && current == old(current)
      ensures !old(Current(txn)) ==> !ok && work == old(work) && txn.spent == old(txn.spent)
      ensures old(Current(txn)) ==> (txn.poisoned <==> old(txn.poisoned) || !ok)
      ensures ok <==> old(Current(txn)) && t !in old(work).records && spec.effects.Keys !! failing
      ensures ok ==> work.records == old(work).records[t := Row(spec, Prepared, false, false, None, None, None, false)]
      ensures ok ==> EffectsOf(work, t) == map e | e in spec.effects :: EffectRow(spec.effects[e], Pending)
      ensures ok ==> txn.touched == old(txn.touched) + {t}
    {
      if txn.spent || current != txn {
        return false;
      }
      if t in work.records {
        txn.poisoned := true;
        return false;
      }
      var rows: map<EffectId, EffectRow> := map[];
      work := work.(records := work.records[t := Row(spec, Prepared, false, false, None, None, None, false)]);
      var todo := spec.effects.Keys;
      while todo != {}
        invariant todo <= spec.effects.Keys
        invariant rows == map e | e in spec.effects && e !in todo :: EffectRow(spec.effects[e], Pending)
        invariant forall e :: e in spec.effects && e !in todo ==> e !in failing
        decreases todo
      {
        var e :| e in todo;
        if e in failing {
          work := work.(effects := work.effects[t := rows]);
          txn.poisoned := true;
          return false;
        }
        rows := rows[e := EffectRow(spec.effects[e], Pending)];
        todo := todo - {e};
      }
      work := work.(effects := work.effects[t := rows]);
      txn.touched := txn.touched + {t};
      return true;
    }

    /** Any of the record column setters.  `refused`: a CHECK or a trigger aborts the statement. */
    method SetColumn(txn: Transaction, t: Txid, change: Change, refused: bool) returns (ok: bool)
      requires Valid()
      modifies this, txn
      ensures Valid() && durable == old(durable) && leaves == old(leaves) && current == old(current)
      ensures ok <==> old(Current(txn)) && t in old(work).records && !refused
      ensures old(Current(txn)) ==> (txn.poisoned <==> old(txn.poisoned) || !ok)
      ensures ok ==> work == old(work).(records := old(work).records[t := Changed(old(work).records[t], change)])
      ensures ok ==> txn.touched == old(txn.touched) + {t}
      ensures !ok ==> work == old(work)
    {
      if txn.spent || current != txn {
        return false;
      }
      if refused || t !in work.records {
        txn.poisoned := true;
        return false;
      }
      work := work.(records := work.records[t := Changed(work.records[t], change)]);
      txn.touched := txn.touched + {t};
      return true;
    }

    method SetJournal(txn: Transaction, t: Txid, e: EffectId, journal: Journal, refused: bool) returns (ok: bool)
      requires Valid()
      modifies this, txn
      ensures Valid() && durable == old(durable) && leaves == old(leaves) && current == old(current)
      ensures ok <==> old(Current(txn)) && e in EffectsOf(old(work), t) && !refused
      ensures old(Current(txn)) ==> (txn.poisoned <==> old(txn.poisoned) || !ok)
      ensures ok ==> work.records == old(work).records && work.blobs == old(work).blobs && work.active == old(work).active
      ensures ok ==> EffectsOf(work, t) == EffectsOf(old(work), t)[e := EffectsOf(old(work), t)[e].(journal := journal)]
      ensures ok ==> txn.touched == old(txn.touched) + {t}
      ensures !ok ==> work == old(work)
    {
      if txn.spent || current != txn {
        return false;
      }
      var rows := EffectsOf(work, t);
      if refused || e !in rows {
        txn.poisoned := true;
        return false;
      }
      work := work.(effects := work.effects[t := rows[e := rows[e].(journal := journal)]]);
      txn.touched := txn.touched + {t};
      return true;
    }

    /** Activating needs an empty slot and an existing record; clearing touches nothing.  `refused`: the
        delete gate aborts the clearing.  */
    method SetActive(txn: Transaction, active: Option<Txid>, refused: bool) returns (ok: bool)
      requires Valid()
      modifies this, txn
      ensures Valid() && durable == old(durable) && leaves == old(leaves) && current == old(current)
      ensures ok <==> old(Current(txn)) && !refused && (active.None? || (old(work).active.None? && active.value in old(work).records))
      ensures old(Current(txn)) ==> (txn.poisoned <==> old(txn.poisoned) || !ok)
      ensures work == if ok then old(work).(active := active) else old(work)
    {
      if txn.spent || current != txn {
        return false;
      }
      if refused {
        txn.poisoned := true;
        return false;
      }
      if active.Some? {
        if work.active.Some? || active.value !in work.records {
          txn.poisoned := true;
          return false;
        }
        txn.touched := txn.touched + {active.value};
      }
      work := work.(active := active);
      return true;
    }

    /** Publish the leaves of a manifest, then index them; `failing` leaves stop the batch part-way. */
    method PromoteStaging(txn: Transaction, t: Txid, manifest: map<Hash, nat>, failing: set<Hash>) returns (ok: bool)
      requires Valid()
      modifies this, txn
      ensures Valid() && durable == old(durable) && current == old(current)
      ensures old(leaves) <= leaves <= old(leaves) + manifest.Keys
      ensures old(Current(txn)) ==> (txn.poisoned <==> old(txn.poisoned) || !ok)
      ensures ok <==> old(Current(txn)) && manifest.Keys !! failing && LengthsAgree(old(work), manifest)
      ensures ok ==> work.records == old(work).records && work.blobs.Keys == old(work).blobs.Keys + manifest.Keys
      ensures ok ==> forall h :: h in manifest ==> work.blobs[h] == manifest[h] && h in leaves
      ensures !old(Current(txn)) ==> !ok && leaves == old(leaves)
      ensures !ok ==> work == old(work)
    {
      if txn.spent || current != txn {
        return false;
      }
      if !LengthsAgree(work, manifest) {
        txn.poisoned := true;
        return false;
      }
      var todo := manifest.Keys;
      while todo != {}
        invariant todo <= manifest.Keys
        invariant leaves == old(leaves) + (manifest.Keys - todo)
        invariant forall h :: h in manifest && h !in todo ==> h !in failing
        invariant durable == old(durable) && work == old(work) && current == old(current)
        invariant txn.poisoned == old(txn.poisoned) && !txn.spent
        invariant txn.touched == old(txn.touched) && txn.promoted == old(txn.promoted)
        decreases todo
      {
        var h :| h in todo;
        if h in failing {
          txn.poisoned := true;
          return false;
        }
        leaves := leaves + {h};
        todo := todo - {h};
      }
      PromotionStaysWithin(durable, work, txn.touched, txn.promoted, t, manifest);
      work := Indexed(work, manifest);
      txn.touched := txn.touched + {t};
      txn.promoted := AddPromoted(txn.promoted, t, manifest.Keys);
      return true;
    }

    /** The end of the `with` block.  Nothing commits from a poisoned transaction or an incoherent one, and
        checking only what was touched leaves every record coherent and the blob index exact.  */
    method Finish(txn: Transaction) returns (committed: bool)
      requires Valid() && Current(txn)
      modifies this, txn
      ensures Valid() && current == null && txn.spent && leaves == old(leaves)
      ensures durable == if committed then old(work) else old(durable)
      ensures committed <==>
        && !old(txn.poisoned)
        && (forall t :: t in old(txn.touched) ==> Coherent(old(work), t))
        && forall t, h :: t in old(txn.promoted) && h in old(txn.promoted)[t] ==>
          t in old(work).records && exists n :: (h, n) in old(work).records[t].spec.files
    {
      PromotedAreFiles(work, txn.promoted);
      committed := !txn.poisoned
        && (forall t :: t in txn.touched ==> Coherent(work, t))
        && PromotedReferenced(work, txn.promoted);
      if committed {
        BarrierSuffices(durable, work, txn.touched, txn.promoted, leaves);
        durable := work;
      } else {
        work := durable;
      }
      txn.spent := true;
      current := null;
    }

    /** A crash, or an exception leaving the block: only published leaves remain. */
    method Abandon()
      requires Valid()
      modifies this, current
      ensures Valid() && current == null && durable == old(durable) && leaves == old(leaves)
    {
      if current != null {
        current.spent := true;
      }
      work := durable;
      current := null;
    }

    /** Reclamation deletes a leaf no committed record references, and no other. */
    method RemoveUnindexed(h: Hash) returns (ok: bool)
      requires Valid()
      modifies this
      ensures Valid() && durable == old(durable) && current == old(current) && work == old(work)
      ensures ok <==> old(current) == null && h in old(leaves) && forall t, n :: t in durable.records ==> (h, n) !in durable.records[t].spec.files
      ensures leaves == if ok then old(leaves) - {h} else old(leaves)
    {
      ReferencedAreFiles(durable, h);
      if current != null || h in work.blobs || h !in leaves {
        return false;
      }
      leaves := leaves - {h};
      return true;
    }
  }
}
