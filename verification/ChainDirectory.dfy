/** The chain directory as the engine drives it: scanning, validating, appending one entry through the
    staging leaf, and settling a survivor of an interrupted append.

    Every disk the directory passes through is recorded in `trace`, so a crash between any two
    operations is a power loss from some member of it.  */
module ChainDirectory {
  import opened ChainModel
  import opened ChainRules
  import opened ChainDisk
  import opened Inspect
  import opened EntryClasses

  datatype Scan = Scanned(rows: seq<Row>, staged: Option<Content>) | Unscannable(kind: DefectKind)

  datatype Validated = Valid(entries: seq<(Digest, Entry)>, staged: Option<Content>) | Invalid(kind: DefectKind)

  /** What is to be done with the staging leaf. */
  datatype Survivor = NoSurvivor | Finish(envelope: Content) | Remove

  datatype Checked = Proof(entries: seq<(Digest, Entry)>, survivor: Survivor) | ChainInvalid(kind: DefectKind) | PlanRefused

  datatype Disposal = Applied(entries: seq<(Digest, Entry)>) | Refused | Spoiled

  // ---- what a scan is ----

  predicate Wholesome(d: Disk) {
    forall n :: n in View(d) ==>
      && !n.Foreign? && View(d)[n] in d.files
      && (n.Leaf? ==> d.files[View(d)[n]].bytes == n.digest.content && Decodes(n.digest.content))
  }

  function RowOf(g: Digest): Row
    requires g.content.Envelope?
  {
    Row(g, g.content.previous, g.content.entry)
  }

  ghost predicate RowsOf(m: map<Name, nat>, rows: seq<Row>) {
    && Distinct(rows)
    && (forall row :: row in rows ==>
          Leaf(row.digest) in m && Decodes(row.digest.content) && row == RowOf(row.digest))
    && (forall g :: Leaf(g) in m ==> exists row :: row in rows && row.digest == g)
  }

  function RowsOfHist(h: Hist): (rows: seq<Row>)
    ensures |rows| == Length(h)
  {
    match h
    case Empty => []
    case Snoc(init, last) => RowsOfHist(init) + [RowOf(NextDigest(init, last))]
  }

  lemma {:induction false} RowsOfHistNames(h: Hist)
    requires Rooted(h)
    ensures DigestSet(RowsOfHist(h)) == Digests(h)
    ensures forall row :: row in RowsOfHist(h) ==> Decodes(row.digest.content) && row == RowOf(row.digest)
    ensures h.Snoc? ==> Some(RowsOfHist(h)[Length(h) - 1].digest) == Tip(h)
  {
    if h.Snoc? {
      RowsOfHistNames(h.init);
      assert DigestSet(RowsOfHist(h)) == DigestSet(RowsOfHist(h.init)) + {NextDigest(h.init, h.last)};
    }
  }

  lemma {:induction false} RowsOfHistPairs(h: Hist)
    ensures Pairs(RowsOfHist(h)) == Entries(h)
  {
    if h.Snoc? {
      RowsOfHistPairs(h.init);
      assert RowsOfHist(h)[..Length(h) - 1] == RowsOfHist(h.init);
    }
  }

  lemma {:induction false} RowsOfHistDistinct(h: Hist)
    requires Rooted(h)
    ensures Distinct(RowsOfHist(h))
  {
    if h.Snoc? {
      RowsOfHistDistinct(h.init);
      RowsOfHistNames(h.init);
      NextDigestIsFresh(h.init, h.last);
      DistinctPush(RowsOfHist(h.init), RowOf(NextDigest(h.init, h.last)));
    }
  }

  lemma DistinctPush(front: seq<Row>, row: Row)
    requires Distinct(front) && row.digest !in DigestSet(front)
    ensures Distinct(front + [row])
  {
    forall i | 0 <= i < |front| ensures front[i].digest != row.digest {
      assert front[i] in front;
    }
  }

  lemma RowsOfHistDiffer(h: Hist)
    requires Rooted(h)
    ensures Distinct(RowsOfHist(h)) && Pairs(RowsOfHist(h)) == Entries(h)
  {
    RowsOfHistPairs(h);
    RowsOfHistDistinct(h);
  }

  lemma {:induction false} RowsOfHistLink(h: Hist)
    requires Rooted(h)
    ensures Linked(RowsOfHist(h))
  {
    if h.Snoc? {
      RowsOfHistLink(h.init);
      RowsOfHistNames(h.init);
    }
  }

  /** Arranged rows of a directory are a history. */
  lemma {:induction false} HistOfRows(a: seq<Row>) returns (h: Hist)
    requires Linked(a)
    requires forall row :: row in a ==> Decodes(row.digest.content) && row == RowOf(row.digest)
    ensures Rooted(h) && RowsOfHist(h) == a
  {
    if a == [] {
      h := Empty;
    } else {
      var front, last := a[..|a| - 1], a[|a| - 1];
      assert last in a;
      forall i, j | 0 <= i && j == i + 1 < |front| ensures front[j].previous == Some(front[i].digest) {
        assert a[j].previous == Some(a[i].digest);
      }
      var init := HistOfRows(front);
      RowsOfHistNames(init);
      if front != [] {
        assert a[|a| - 1].previous == Some(a[|a| - 2].digest);
        assert RowsOfHist(init)[Length(init) - 1] == front[|front| - 1];
      }
      assert last.previous == Tip(init);
      h := Snoc(init, last.entry);
      assert a == front + [last];
    }
  }

  lemma ReadIsArranged(d: Disk, rows: seq<Row>, h: Hist)
    requires Wholesome(d) && RowsOf(View(d), rows) && ReadsAs(d, h)
    ensures h.Snoc? ==> Arrangement(rows, RowsOfHist(h))
  {
    RowsOfHistNames(h);
    RowsOfHistDiffer(h);
    RowsOfHistLink(h);
    var a := RowsOfHist(h);
    forall row ensures row in rows <==> row in a {
      if row in rows {
        assert row.digest in DigestSet(a);
      }
      if row in a {
        assert row.digest in DigestSet(a);
        assert Leaf(row.digest) in View(d);
      }
    }
  }

  /** A wholesome directory reads as a non-empty history exactly when its rows can be arranged. */
  lemma ReadableIsArrangeable(d: Disk, rows: seq<Row>, h: Hist)
    requires Wholesome(d) && RowsOf(View(d), rows) && Rooted(h)
    ensures ReadsAs(d, h) <==> (h.Empty? && rows == []) || (h.Snoc? && Arrangement(rows, RowsOfHist(h)))
  {
    if ReadsAs(d, h) {
      assert rows == [] <==> h.Empty? by {
        if rows != [] { assert rows[0] in rows; assert Leaf(rows[0].digest) in View(d); }
        if h.Snoc? { assert Leaf(Tip(h).value) in View(d); }
      }
      ReadIsArranged(d, rows, h);
    } else if h.Snoc? && Arrangement(rows, RowsOfHist(h)) {
      ArrangedReads(d, rows, h);
    }
  }

  lemma ArrangedReads(d: Disk, rows: seq<Row>, h: Hist)
    requires Wholesome(d) && RowsOf(View(d), rows) && Rooted(h) && h.Snoc? && Arrangement(rows, RowsOfHist(h))
    ensures ReadsAs(d, h)
  {
    RowsOfHistNames(h);
    forall g ensures Leaf(g) in View(d) <==> g in Digests(h) {
      if Leaf(g) in View(d) {
        var row :| row in rows && row.digest == g;
        assert row in RowsOfHist(h);
      }
      if g in Digests(h) {
        var row :| row in RowsOfHist(h) && row.digest == g;
        assert row in rows;
      }
    }
  }

  // ---- crash safety ----

  /** Whatever a power loss keeps of `d`, the directory reads as `h` or as `h` with `e` appended. */
  ghost predicate CrashSafe(d: Disk, h: Hist, e: Entry) {
    forall d' :: PowerLoss(d, d') ==> ReadsAs(d', h) || ReadsAs(d', Snoc(h, e))
  }

  /** The invariant, at one of the points an append of `e` to `h` passes. */
  ghost predicate Midway(d: Disk, h: Hist, e: Entry) {
    Holds(d, h, None) || Holds(d, h, Some(e)) || Holds(d, Snoc(h, e), None)
  }

  lemma MidwayIsCrashSafe(d: Disk, h: Hist, e: Entry)
    requires Midway(d, h, e)
    ensures CrashSafe(d, h, e)
    ensures forall d' :: PowerLoss(d, d') ==> ReadsAs(d', h) || ReadsAs(d', Snoc(h, e))
  {
    forall d' | PowerLoss(d, d')
      ensures ReadsAs(d', h) || ReadsAs(d', Snoc(h, e))
    {
      if Holds(d, h, None) {
        var h' := PowerLossOutcome(d, h, None, d');
      } else if Holds(d, h, Some(e)) {
        var h' := PowerLossOutcome(d, h, Some(e), d');
      } else {
        var h' := PowerLossOutcome(d, Snoc(h, e), None, d');
      }
    }
  }

  /** Publishing the staged envelope extends what a reader sees by exactly its entry. */
  lemma PublishReads(d: Disk, h: Hist, e: Entry)
    requires ReadsAs(d, h) && Rooted(Snoc(h, e)) && StagedBytes(d) == Some(NextDigest(h, e).content)
    ensures ReadsAs(FlushDirectory(PublishStage(d, NextDigest(h, e))), Snoc(h, e))
    ensures Stage !in View(FlushDirectory(PublishStage(d, NextDigest(h, e))))
  {
    var g := NextDigest(h, e);
    NextDigestIsFresh(h, e);
    PublishedNames(d, g);
  }

  lemma PublishedNames(d: Disk, g: Digest)
    requires Stage in View(d)
    ensures View(PublishStage(d, g)) == View(d)[Leaf(g) := View(d)[Stage]] - {Stage}
  {
    var ops := [Link(Leaf(g), View(d)[Stage]), Unlink(Stage)];
    ReplayAppend(d.durable, d.ops, ops);
    assert ops[..1] == [Link(Leaf(g), View(d)[Stage])] && ops[..1][..0] == [];
    assert Replay(View(d), ops[..1]) == View(d)[Leaf(g) := View(d)[Stage]];
  }

  // ---- planned envelopes ----

  /** Planned envelopes are canonical entries, each once. */
  predicate PlanOk(planned: seq<Content>) {
    && (forall i :: 0 <= i < |planned| ==> Decodes(planned[i]))
    && forall i, j :: 0 <= i < j < |planned| ==> planned[i] != planned[j]
  }

  /** A planned envelope is in the chain or links from its tip. */
  predicate FitsChain(h: Hist, envelope: Content)
    requires envelope.Envelope?
  {
    Sha256(envelope) in Digests(h) || envelope.previous == Tip(h)
  }

  predicate PlanFitsChain(h: Hist, planned: seq<Content>) {
    PlanOk(planned) && forall i :: 0 <= i < |planned| ==> FitsChain(h, planned[i])
  }

  /** What a plan must be: canonical entries, each once, and each in the chain or linked from its tip. */
  lemma PlansFitting(h: Hist, planned: seq<Content>)
    ensures PlanFitsChain(h, planned) <==>
      && (forall c :: c in planned ==> c.Envelope? && (c.previous == None <==> c.entry.Genesis?))
      && (forall i, j :: 0 <= i < j < |planned| ==> planned[i] != planned[j])
      && forall c :: c in planned ==> c == Envelope(Tip(h), c.entry) || Sha256(c) in Digests(h)
  {
    if PlanFitsChain(h, planned) {
      forall c | c in planned ensures c.Envelope? && (c == Envelope(Tip(h), c.entry) || Sha256(c) in Digests(h)) {
        var i :| 0 <= i < |planned| && planned[i] == c;
        assert Decodes(planned[i]) && FitsChain(h, planned[i]);
      }
    }
  }

  lemma {:induction false} EntriesNameDigests(h: Hist, g: Digest)
    ensures g in Digests(h) <==> exists i :: 0 <= i < |Entries(h)| && Entries(h)[i].0 == g
  {
    if h.Snoc? {
      EntriesNameDigests(h.init, g);
      var es := Entries(h);
      assert es == Entries(h.init) + [(NextDigest(h.init, h.last), h.last)];
      if g in Digests(h.init) {
        var i :| 0 <= i < |Entries(h.init)| && Entries(h.init)[i].0 == g;
        assert es[i].0 == g;
      }
      assert es[|es| - 1].0 == NextDigest(h.init, h.last);
    }
  }

  function TipOf(entries: seq<(Digest, Entry)>): Option<Digest> {
    if entries == [] then None else Some(entries[|entries| - 1].0)
  }

  class Directory {
    var disk: Disk
    ghost var trace: seq<Disk>

    /** One durable or volatile change of the disk. */
    method Become(d: Disk)
      modifies this
      ensures disk == d && trace == old(trace) + [d]
    {
      disk := d;
      trace := trace + [d];
    }

    /** Pass 1: one row per digest-named leaf, and the staged bytes. */
    method Scan() returns (r: Scan)
      ensures r.Scanned? <==> Wholesome(disk)
      ensures r.Scanned? ==> RowsOf(View(disk), r.rows) && r.staged == StagedBytes(disk)
    {
      var names, view := View(disk).Keys, View(disk);
      var rows: seq<Row>, staged: Option<Content> := [], None;
      while names != {}
        invariant names <= view.Keys && view == View(disk)
        invariant forall n :: n in view && n !in names ==>
          && !n.Foreign? && view[n] in disk.files
          && (n.Leaf? ==> disk.files[view[n]].bytes == n.digest.content && Decodes(n.digest.content))
        invariant Distinct(rows)
        invariant forall row :: row in rows ==>
          Leaf(row.digest) in view && Leaf(row.digest) !in names
          && Decodes(row.digest.content) && row == RowOf(row.digest)
        invariant forall g :: Leaf(g) in view && Leaf(g) !in names ==> exists row :: row in rows && row.digest == g
        invariant staged == if Stage in view && Stage !in names then StagedBytes(disk) else None
        decreases names
      {
        var n :| n in names;
        if n.Foreign? || view[n] !in disk.files {
          return Unscannable(ForeignLeaf);
        }
        var bytes := disk.files[view[n]].bytes;
        if n.Stage? {
          staged := Some(bytes);
        } else {
          if Sha256(bytes) != n.digest {
            return Unscannable(NameBytesMismatch);
          }
          if !Decodes(bytes) {
            return Unscannable(UndecodableEntry);
          }
          ghost var before := rows;
          rows := rows + [RowOf(n.digest)];
          assert forall row :: row in before ==> row in rows;
          assert RowOf(n.digest) in rows;
        }
        names := names - {n};
      }
      return Scanned(rows, staged);
    }

    /** All three passes: success is exactly reading as a clean history, and returns that history. */
    method Validate() returns (r: Validated, ghost h: Hist)
      ensures r.Valid? ==> ReadsAs(disk, h) && Clean(h) && r.entries == Entries(h) && r.staged == StagedBytes(disk)
      ensures r.Invalid? ==> forall x :: !(ReadsAs(disk, x) && Clean(x))
    {
      h := Empty;
      var scan := Scan();
      if scan.Unscannable? {
        forall x | ReadsAs(disk, x) ensures false {
          ReadsAsIsWholesome(disk, x);
        }
        return Invalid(scan.kind), h;
      }
      ReadableIsArrangeable(disk, scan.rows, Empty);
      if scan.rows == [] {
        return Valid([], scan.staged), h;
      }
      var linear := Linearize(scan.rows);
      if linear.Broken? {
        forall x | ReadsAs(disk, x) ensures false {
          ReadableIsArrangeable(disk, scan.rows, x);
        }
        return Invalid(linear.kind), h;
      }
      ghost var a: seq<Row> :| Arrangement(scan.rows, a) && linear.order == Pairs(a);
      h := HistOfRows(a);
      RowsOfHistDiffer(h);
      ReadableIsArrangeable(disk, scan.rows, h);
      var defect := InspectEntryClasses(linear.order, h);
      NoDefectIsClean(h);
      if defect.Some? {
        forall x | ReadsAs(disk, x) ensures !Clean(x) {
          ReadsAsUnique(disk, x, h);
        }
        return Invalid(defect.value), h;
      }
      return Valid(linear.order, scan.staged), h;
    }

    /** `validate_chain`: the plan is checked first, then the chain, then the plan against the chain; the
        proof says what is to become of the staging leaf.  */
    method ValidateChain(planned: seq<Content>) returns (r: Checked, ghost h: Hist)
      ensures r.Proof? ==> ReadsAs(disk, h) && Clean(h) && r.entries == Entries(h) && PlanFitsChain(h, planned)
      ensures r.Proof? ==> (r.survivor == NoSurvivor <==> StagedBytes(disk) == None)
      ensures r.Proof? ==> forall envelope ::
        r.survivor == Finish(envelope) <==> StagedBytes(disk) == Some(envelope) && envelope in planned && Sha256(envelope) !in Digests(h)
      ensures r.ChainInvalid? ==> PlanOk(planned) && forall x :: !(ReadsAs(disk, x) && Clean(x))
      ensures r.PlanRefused? ==> !PlanOk(planned) || (ReadsAs(disk, h) && Clean(h) && !PlanFitsChain(h, planned))
    {
      h := Empty;
      var fine := CheckPlan(planned);
      if !fine {
        return PlanRefused, h;
      }
      var current;
      current, h := Validate();
      if current.Invalid? {
        return ChainInvalid(current.kind), h;
      }
      fine := PlanFits(planned, current.entries, h);
      if !fine {
        return PlanRefused, h;
      }
      var survivor := NoSurvivor;
      if current.staged.Some? {
        var durable := Names(current.entries, Sha256(current.staged.value), h);
        survivor := if current.staged.value in planned && !durable then Finish(current.staged.value) else Remove;
      }
      return Proof(current.entries, survivor), h;
    }

    /** `_write_all`: any number of short writes; until the last the file holds something else. */
    method WriteAll(f: nat, bytes: Content, length: nat, ghost h: Hist, ghost e: Entry)
      requires Holds(disk, h, None) && f in disk.files && Private(disk, f) && length > 0
      modifies this
      ensures Holds(disk, h, None) && Private(disk, f) && View(disk) == old(View(disk))
      ensures f in disk.files && disk.files[f].bytes == bytes
      ensures Passed(old(trace), trace, h, e)
    {
      var offset := 0;
      while offset < length
        invariant 0 <= offset <= length
        invariant Holds(disk, h, None) && f in disk.files && Private(disk, f)
        invariant View(disk) == old(View(disk))
        invariant offset == length ==> disk.files[f].bytes == bytes
        invariant Passed(old(trace), trace, h, e)
      {
        var written :| 0 < written <= length - offset;
        offset := offset + written;
        var content := if offset == length then bytes else Raw(offset);
        WriteFileHolds(disk, h, None, f, content);
        Become(WriteFile(disk, f, content));
      }
    }

    /** Create, fill and flush the staging leaf. */
    method StageEntry(f: nat, bytes: Content, length: nat, ghost h: Hist, ghost e: Entry)
      requires Holds(disk, h, None) && f !in disk.files && length > 0
      modifies this
      ensures Holds(disk, h, None) && Stage in View(disk) && View(disk)[Stage] in disk.files
      ensures disk.files[View(disk)[Stage]] == File(bytes, true)
      ensures Passed(old(trace), trace, h, e)
    {
      CreateStageHolds(disk, h, None, f);
      Become(CreateStage(disk, f));
      WriteAll(f, bytes, length, h, e);
      FlushFileHolds(disk, h, None, f);
      Become(FlushFile(disk, f));
    }

    /** Rename the flushed staging leaf onto its digest, then flush the directory. */
    method PublishStaged(digest: Digest, ghost h: Hist, ghost e: Entry)
      requires Holds(disk, h, None) && Rooted(Snoc(h, e)) && digest == NextDigest(h, e)
      requires Stage in View(disk) && View(disk)[Stage] in disk.files
      requires disk.files[View(disk)[Stage]] == File(digest.content, true)
      modifies this
      ensures Holds(disk, Snoc(h, e), None) && disk.ops == []
      ensures ReadsAs(disk, Snoc(h, e)) && Stage !in View(disk)
      ensures Passed(old(trace), trace, h, e)
    {
      // an existing leaf of that name would be the EEXIST case; a fresh digest has none
      ViewReads(disk, h, None);
      NextDigestIsFresh(h, e);
      assert Leaf(digest) !in View(disk);
      PublishHolds(disk, h, e);
      Become(PublishStage(disk, digest));
      FlushDirectoryHolds(disk, h, Some(e));
      Become(FlushDirectory(disk));
      ViewReads(disk, Snoc(h, e), None);
    }

    /** `append_entry`: succeeds exactly on the clean directory its proof is of, with no survivor and an entry
        that may stand there; the entry then becomes durable under its digest, and at every point a power
        loss leaves the old history or the old history plus exactly this entry.  */
    method AppendEntry(entries: seq<(Digest, Entry)>, survivor: Survivor, e: Entry, f: nat, length: nat, ghost h: Hist)
      returns (digest: Option<Digest>)
      requires Holds(disk, h, None) && f !in disk.files && length > 0
      modifies this
      ensures digest.Some? <==>
        Clean(h) && old(StagedBytes(disk)).None? && entries == Entries(h) && survivor.NoSurvivor? && Rooted(Snoc(h, e))
      ensures digest.None? ==> disk == old(disk)
      ensures digest.Some? ==> digest == Some(NextDigest(h, e)) && Holds(disk, Snoc(h, e), None) && disk.ops == []
      ensures digest.Some? ==> ReadsAs(disk, Snoc(h, e)) && Stage !in View(disk)
      ensures old(trace) <= trace && forall i, d' :: |old(trace)| <= i < |trace| && PowerLoss(trace[i], d') ==>
        ReadsAs(d', h) || ReadsAs(d', Snoc(h, e))
    {
      ViewReads(disk, h, None);
      TipOfEntries(h);
      if survivor != NoSurvivor || !Decodes(Envelope(TipOf(entries), e)) {
        return None;
      }
      var current, h' := Validate();
      if current.Valid? {
        ReadsAsUnique(disk, h, h');
      }
      if current != Valid(entries, None) {
        return None;
      }
      var envelope := Envelope(TipOf(entries), e);
      StageEntry(f, envelope, length, h, e);
      PublishStaged(Sha256(envelope), h, e);
      PassedIsCrashSafe(old(trace), trace, h, e);
      return Some(Sha256(envelope));
    }

    /** Unlink the staging leaf and flush. */
    method DropStage(ghost h: Hist)
      requires Holds(disk, h, None)
      modifies this
      ensures Holds(disk, h, None) && ReadsAs(disk, h) && StagedBytes(disk).None? && disk.ops == []
      ensures |trace| == |old(trace)| + 2 && old(trace) <= trace
      ensures forall i :: |old(trace)| <= i < |trace| ==> Holds(trace[i], h, None)
    {
      UnlinkStageHolds(disk, h, None);
      Become(UnlinkStage(disk));
      FlushDirectoryHolds(disk, h, None);
      Become(FlushDirectory(disk));
      ViewReads(disk, h, None);
    }

    /** `apply_survivors` with a REMOVE: only the staging leaf goes. */
    method RemoveSurvivor(entries: seq<(Digest, Entry)>, ghost h: Hist) returns (r: Disposal)
      requires Holds(disk, h, None)
      modifies this
      ensures r.Applied? <==> Clean(h) && entries == Entries(h)
      ensures r.Applied? ==> r.entries == entries && Holds(disk, h, None) && StagedBytes(disk).None?
      ensures !r.Applied? ==> disk == old(disk)
      ensures old(trace) <= trace && forall i :: |old(trace)| <= i < |trace| ==> Holds(trace[i], h, None)
    {
      ViewReads(disk, h, None);
      var current, h' := Validate();
      if current.Valid? {
        ReadsAsUnique(disk, h, h');
      }
      if current.Invalid? || current.entries != entries {
        return Refused;
      }
      if current.staged.Some? {
        DropStage(h);
      }
      return Applied(entries);
    }

    /** The two durable steps of `_finish`, crash safe when the survivor's bytes had been flushed. */
    method FinishStaged(digest: Digest, ghost h: Hist, ghost e: Entry)
      requires Holds(disk, h, None) && Rooted(Snoc(h, e)) && digest == NextDigest(h, e)
      requires StagedBytes(disk) == Some(digest.content)
      modifies this
      ensures ReadsAs(disk, Snoc(h, e)) && StagedBytes(disk).None?
      ensures old(StageSynced(disk)) ==> Passed(old(trace), trace, h, e)
    {
      ViewReads(disk, h, None);
      if disk.files[View(disk)[Stage]].synced {
        PublishStaged(digest, h, e);
      } else {
        PublishReads(disk, h, e);
        Become(PublishStage(disk, digest));
        Become(FlushDirectory(disk));
      }
    }

    /** `apply_survivors` with a FINISH: the planned entry ends up in the chain exactly once and no staging
        leaf is left, whether or not it had already been published.  Every intermediate disk is crash
        safe provided the survivor's bytes had been flushed.  */
    method FinishSurvivor(entries: seq<(Digest, Entry)>, e: Entry, ghost h: Hist, ghost base: Hist) returns (r: Disposal)
      requires Holds(disk, h, None) && entries == Entries(base) && Rooted(Snoc(base, e))
      modifies this
      ensures r.Applied? ==> ReadsAs(disk, Snoc(base, e)) && r.entries == Entries(Snoc(base, e)) && StagedBytes(disk).None?
      ensures r.Applied? <==>
        && Clean(Snoc(base, e))
        && ((h == base && old(StagedBytes(disk)) == Some(Envelope(Tip(base), e)))
            || (h == Snoc(base, e) && old(StagedBytes(disk)) in {None, Some(Envelope(Tip(base), e))}))
      ensures r.Refused? ==> disk == old(disk)
      ensures r.Spoiled? ==> !Clean(Snoc(base, e))
      ensures old(Stage in View(disk) && View(disk)[Stage] in disk.files ==> disk.files[View(disk)[Stage]].synced) ==>
        old(trace) <= trace && forall i, d' :: |old(trace)| <= i < |trace| && PowerLoss(trace[i], d') ==>
          ReadsAs(d', base) || ReadsAs(d', Snoc(base, e))
    {
      TipOfEntries(base);
      var envelope := Envelope(TipOf(entries), e);
      var digest := Sha256(envelope);
      ViewReads(disk, h, None);
      var current, h' := Validate();
      if current.Invalid? {
        return Refused;
      }
      ReadsAsUnique(disk, h, h');
      WhichHistory(h, base, e);
      if current.entries == entries && current.staged == Some(envelope) {
        FinishStaged(digest, base, e);
      } else if current.entries == entries + [(digest, e)] && current.staged in {None, Some(envelope)} {
        if current.staged.Some? {
          DropStage(h);
        }
      } else {
        return Refused;
      }
      if old(StageSynced(disk)) {
        PassedIsCrashSafe(old(trace), trace, base, e);
      }
      var final, h'' := Validate();
      if final.Invalid? {
        return Spoiled;
      }
      ReadsAsUnique(disk, Snoc(base, e), h'');
      return Applied(final.entries);
    }
  }

  /** The checking loop over the planned envelopes. */
  method CheckPlan(planned: seq<Content>) returns (ok: bool)
    ensures ok <==> PlanOk(planned)
  {
    for i := 0 to |planned|
      invariant PlanOk(planned[..i])
    {
      if !Decodes(planned[i]) || planned[i] in planned[..i] {
        if Decodes(planned[i]) {
          ghost var j :| 0 <= j < i && planned[..i][j] == planned[i];
          assert planned[j] == planned[i];
        }
        return false;
      }
      assert planned[..i + 1] == planned[..i] + [planned[i]];
    }
    assert planned[..|planned|] == planned;
    return true;
  }

  /** Is the digest one of the chain's names? */
  method Names(entries: seq<(Digest, Entry)>, g: Digest, ghost h: Hist) returns (named: bool)
    requires entries == Entries(h)
    ensures named <==> g in Digests(h)
  {
    EntriesNameDigests(h, g);
    for i := 0 to |entries|
      invariant forall k :: 0 <= k < i ==> entries[k].0 != g
    {
      if entries[i].0 == g {
        return true;
      }
    }
    return false;
  }

  method PlanFits(planned: seq<Content>, entries: seq<(Digest, Entry)>, ghost h: Hist) returns (ok: bool)
    requires PlanOk(planned) && entries == Entries(h)
    ensures ok <==> forall i :: 0 <= i < |planned| ==> FitsChain(h, planned[i])
  {
    TipOfEntries(h);
    for i := 0 to |planned|
      invariant forall k :: 0 <= k < i ==> FitsChain(h, planned[k])
    {
      var durable := Names(entries, Sha256(planned[i]), h);
      if !durable && planned[i].previous != TipOf(entries) {
        assert !FitsChain(h, planned[i]);
        return false;
      }
    }
    return true;
  }

  /** Every disk passed since `before` lies at some point of appending `e` to `h`. */
  ghost predicate Passed(before: seq<Disk>, after: seq<Disk>, h: Hist, e: Entry) {
    before <= after && forall i :: |before| <= i < |after| ==> Midway(after[i], h, e)
  }

  lemma PassedIsCrashSafe(before: seq<Disk>, after: seq<Disk>, h: Hist, e: Entry)
    requires Passed(before, after, h, e)
    ensures forall i :: |before| <= i < |after| ==> CrashSafe(after[i], h, e)
  {
    forall i | |before| <= i < |after| ensures CrashSafe(after[i], h, e) {
      MidwayIsCrashSafe(after[i], h, e);
    }
  }

  lemma WhichHistory(h: Hist, base: Hist, e: Entry)
    ensures Entries(h) == Entries(base) <==> h == base
    ensures Entries(h) == Entries(base) + [(NextDigest(base, e), e)] <==> h == Snoc(base, e)
  {
    if Entries(h) == Entries(base) {
      EntriesDetermine(h, base);
    }
    if Entries(h) == Entries(Snoc(base, e)) {
      EntriesDetermine(h, Snoc(base, e));
    }
  }

  predicate StageSynced(d: Disk) {
    Stage in View(d) ==> View(d)[Stage] in d.files && d.files[View(d)[Stage]].synced
  }

  lemma TipOfEntries(h: Hist)
    ensures TipOf(Entries(h)) == Tip(h)
  {
  }

  lemma {:induction false} EntriesDetermine(a: Hist, b: Hist)
    requires Entries(a) == Entries(b)
    ensures a == b
  {
    TipOfEntries(a);
    TipOfEntries(b);
    TipInjective(a, b);
  }

  lemma ReadsAsIsWholesome(d: Disk, h: Hist)
    requires ReadsAs(d, h)
    ensures Wholesome(d)
  {
    RowsOfHistNames(h);
    forall g | Leaf(g) in View(d) ensures Decodes(g.content) {
      assert g in DigestSet(RowsOfHist(h));
    }
  }
}
