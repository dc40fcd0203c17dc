/** The chain directory as a crash-prone disk.

    Directory operations take effect at once in the view and become durable at a directory flush.
    A power loss keeps any subsequence of the unflushed operations (the two halves of a rename may
    be torn apart) and leaves arbitrary bytes in every file that was never flushed.  */
module ChainDisk {
  import opened ChainModel

  datatype Name = Stage | Leaf(digest: Digest) | Foreign(text: string)

  datatype File = File(bytes: Content, synced: bool)

  datatype DirOp = Link(name: Name, file: nat) | Unlink(name: Name)

  datatype Disk = Disk(files: map<nat, File>, durable: map<Name, nat>, ops: seq<DirOp>)

  function Apply(m: map<Name, nat>, op: DirOp): map<Name, nat> {
    match op
    case Link(name, file) => m[name := file]
    case Unlink(name) => m - {name}
  }

  function Replay(m: map<Name, nat>, ops: seq<DirOp>): map<Name, nat> {
    if ops == [] then m else Apply(Replay(m, ops[..|ops| - 1]), ops[|ops| - 1])
  }

  /** What a running process sees. */
  function View(d: Disk): map<Name, nat> {
    Replay(d.durable, d.ops)
  }

  /** `kept` is `ops` with any of its members left out. */
  predicate Selection(kept: seq<DirOp>, ops: seq<DirOp>) {
    if ops == [] then kept == []
    else
      || Selection(kept, ops[..|ops| - 1])
      || (kept != [] && kept[|kept| - 1] == ops[|ops| - 1] && Selection(kept[..|kept| - 1], ops[..|ops| - 1]))
  }

  ghost predicate PowerLoss(d: Disk, d': Disk) {
    && d'.ops == []
    && (exists kept :: Selection(kept, d.ops) && d'.durable == Replay(d.durable, kept))
    && d'.files.Keys == d.files.Keys
    && forall f :: f in d.files ==> d'.files[f].synced && (d.files[f].synced ==> d'.files[f] == d.files[f])
  }

  /** Background writeback: the directory, or not, and any set of files reach the disk. */
  ghost predicate Writeback(d: Disk, d': Disk) {
    && ((d'.durable == d.durable && d'.ops == d.ops) || (d'.durable == View(d) && d'.ops == []))
    && d'.files.Keys == d.files.Keys
    && forall f :: f in d.files ==>
      d'.files[f].bytes == d.files[f].bytes && (d.files[f].synced ==> d'.files[f].synced)
  }

  // ---- the primitives the engine uses ----

  function CreateStage(d: Disk, f: nat): Disk {
    d.(files := d.files[f := File(Raw(0), false)], ops := d.ops + [Link(Stage, f)])
  }

  function WriteFile(d: Disk, f: nat, bytes: Content): Disk {
    d.(files := d.files[f := File(bytes, false)])
  }

  function FlushFile(d: Disk, f: nat): Disk
    requires f in d.files
  {
    d.(files := d.files[f := d.files[f].(synced := true)])
  }

  /** `transfer_noclobber` of the staging leaf onto a digest name. */
  function PublishStage(d: Disk, digest: Digest): Disk
    requires Stage in View(d)
  {
    d.(ops := d.ops + [Link(Leaf(digest), View(d)[Stage]), Unlink(Stage)])
  }

  function UnlinkStage(d: Disk): Disk {
    d.(ops := d.ops + [Unlink(Stage)])
  }

  function FlushDirectory(d: Disk): Disk {
    d.(durable := View(d), ops := [])
  }

  // ---- what a reader finds ----

  function StagedBytes(d: Disk): Option<Content> {
    var m := View(d);
    if Stage in m && m[Stage] in d.files then Some(d.files[m[Stage]].bytes) else None
  }

  /** The directory holds exactly the history `h`: one digest-named leaf per entry, each holding
      exactly its envelope, and at most a staging leaf besides.  */
  ghost predicate ReadsAs(d: Disk, h: Hist) {
    && Rooted(h)
    && (forall n :: n in View(d) ==> !n.Foreign? && View(d)[n] in d.files)
    && (forall g :: Leaf(g) in View(d) <==> g in Digests(h))
    && (forall g :: g in Digests(h) ==> d.files[View(d)[Leaf(g)]].bytes == g.content)
  }

  lemma ReadsAsUnique(d: Disk, a: Hist, b: Hist)
    requires ReadsAs(d, a) && ReadsAs(d, b)
    ensures a == b
  {
    assert Digests(a) == Digests(b) by {
      assert forall g :: g in Digests(a) <==> Leaf(g) in View(d);
      assert forall g :: g in Digests(b) <==> Leaf(g) in View(d);
    }
    DigestsDetermine(a, b);
  }

  // ---- the crash invariant ----

  /** `h` is durable; `next`, when present, is linked under its digest but not yet flushed. */
  ghost predicate Holds(d: Disk, h: Hist, next: Option<Entry>) {
    && Rooted(h)
    && (next.Some? ==> Rooted(Snoc(h, next.value)) && PendingLeaf(d, NextDigest(h, next.value)))
    && (forall n :: n in d.durable ==> !n.Foreign? && d.durable[n] in d.files)
    && (forall g :: Leaf(g) in d.durable <==> g in Digests(h))
    && (forall g :: g in Digests(h) ==> d.files[d.durable[Leaf(g)]] == File(g.content, true))
    && (forall op :: op in d.ops ==> OpHolds(d, h, next, op))
  }

  ghost predicate PendingLeaf(d: Disk, g: Digest) {
    exists op :: op in d.ops && op.name == Leaf(g)
  }

  predicate OpHolds(d: Disk, h: Hist, next: Option<Entry>, op: DirOp) {
    && !op.name.Foreign?
    && (op.Link? ==> op.file in d.files)
    && (op.name.Leaf? ==>
          && op.Link?
          && next.Some?
          && op.name.digest == NextDigest(h, next.value)
          && d.files[op.file] == File(op.name.digest.content, true))
  }

  function Seen(h: Hist, next: Option<Entry>): Hist {
    if next.Some? then Snoc(h, next.value) else h
  }

  /** No digest name leads, durably or pending, to file `f`. */
  ghost predicate Private(d: Disk, f: nat) {
    && (forall n :: n in d.durable && n.Leaf? ==> d.durable[n] != f)
    && (forall op :: op in d.ops && op.Link? && op.name.Leaf? ==> op.file != f)
  }

  // ---- replay lemmas ----

  lemma {:induction false} ReplayUntouched(m: map<Name, nat>, ops: seq<DirOp>, n: Name)
    requires forall op :: op in ops ==> op.name != n
    ensures n in Replay(m, ops) <==> n in m
    ensures n in m ==> Replay(m, ops)[n] == m[n]
  {
    if ops != [] {
      assert forall op :: op in ops[..|ops| - 1] ==> op in ops;
      assert ops[|ops| - 1] in ops;
      ReplayUntouched(m, ops[..|ops| - 1], n);
    }
  }

  lemma {:induction false} ReplayProvenance(m: map<Name, nat>, ops: seq<DirOp>, n: Name)
    requires n in Replay(m, ops)
    ensures (n in m && Replay(m, ops)[n] == m[n]) || Link(n, Replay(m, ops)[n]) in ops
  {
    if ops != [] {
      var front, last := ops[..|ops| - 1], ops[|ops| - 1];
      assert last in ops;
      if !(last.Link? && last.name == n) {
        ReplayProvenance(m, front, n);
        assert forall op :: op in front ==> op in ops;
      }
    }
  }

  lemma {:induction false} ReplayLinked(m: map<Name, nat>, ops: seq<DirOp>, n: Name)
    requires Unlink(n) !in ops
    requires exists op :: op in ops && op.name == n
    ensures n in Replay(m, ops)
  {
    var front, last := ops[..|ops| - 1], ops[|ops| - 1];
    assert ops == front + [last];
    assert last in ops;
    if last.name != n {
      ReplayLinked(m, front, n);
    }
  }

  lemma {:induction false} SelectionIsSubset(kept: seq<DirOp>, ops: seq<DirOp>)
    requires Selection(kept, ops)
    ensures forall op :: op in kept ==> op in ops
  {
    if ops != [] {
      var front := ops[..|ops| - 1];
      assert forall op :: op in front ==> op in ops;
      if Selection(kept, front) {
        SelectionIsSubset(kept, front);
      } else {
        SelectionIsSubset(kept[..|kept| - 1], front);
        assert kept == kept[..|kept| - 1] + [ops[|ops| - 1]];
      }
    }
  }

  /** The last operation on a name decides it. */
  lemma {:induction false} LastWins(m: map<Name, nat>, ops: seq<DirOp>, k: nat)
    requires k < |ops| && forall i :: k < i < |ops| ==> ops[i].name != ops[k].name
    ensures ops[k].Link? ==> ops[k].name in Replay(m, ops) && Replay(m, ops)[ops[k].name] == ops[k].file
    ensures ops[k].Unlink? ==> ops[k].name !in Replay(m, ops)
  {
    var front, last := ops[..|ops| - 1], ops[|ops| - 1];
    if k < |ops| - 1 {
      LastWins(m, front, k);
      assert front[k] == ops[k] && last.name != ops[k].name;
    }
  }

  /** `kept` picks operations of `ops` at increasing positions. */
  predicate PicksAt(kept: seq<DirOp>, ops: seq<DirOp>, at: seq<nat>) {
    && |at| == |kept|
    && (forall i :: 0 <= i < |at| ==> at[i] < |ops| && kept[i] == ops[at[i]])
    && forall i, j :: 0 <= i < j < |at| ==> at[i] < at[j]
  }

  /** What a power loss keeps is a subsequence, */
  lemma {:induction false} SelectionPicks(kept: seq<DirOp>, ops: seq<DirOp>) returns (at: seq<nat>)
    requires Selection(kept, ops)
    ensures PicksAt(kept, ops, at)
    decreases |ops|
  {
    at := [];
    if ops != [] {
      var front, n := ops[..|ops| - 1], |ops| - 1;
      if Selection(kept, front) {
        at := SelectionPicks(kept, front);
      } else {
        at := SelectionPicks(kept[..|kept| - 1], front);
        at := at + [n];
      }
    }
  }

  /** and may be any. */
  lemma {:induction false} PicksAreSelected(kept: seq<DirOp>, ops: seq<DirOp>, at: seq<nat>)
    requires PicksAt(kept, ops, at)
    ensures Selection(kept, ops)
    decreases |ops|
  {
    if kept == [] {
      if ops != [] {
        PicksAreSelected(kept, ops[..|ops| - 1], at);
      }
    } else {
      var last := at[|at| - 1];
      assert last < |ops|;
      var front := ops[..|ops| - 1];
      if last == |ops| - 1 {
        PicksAreSelected(kept[..|kept| - 1], front, at[..|at| - 1]);
      } else {
        assert forall i :: 0 <= i < |at| ==> at[i] <= last;
        PicksAreSelected(kept, front, at);
      }
    }
  }

  /** Any such subsequence may be what is kept, and a file that was not flushed may come back with any bytes. */
  lemma AnyLossIsPossible(d: Disk, at: seq<nat>, kept: seq<DirOp>, bytes: map<nat, Content>) returns (d': Disk)
    requires PicksAt(kept, d.ops, at) && d.files.Keys <= bytes.Keys
    ensures PowerLoss(d, d') && View(d') == Replay(d.durable, kept)
    ensures forall f :: f in d.files ==> f in d'.files && d'.files[f].bytes == if d.files[f].synced then d.files[f].bytes else bytes[f]
  {
    PicksAreSelected(kept, d.ops, at);
    var files := map f | f in d.files :: File(if d.files[f].synced then d.files[f].bytes else bytes[f], true);
    d' := Disk(files, Replay(d.durable, kept), []);
  }

  lemma {:induction false} ReplayAppend(m: map<Name, nat>, a: seq<DirOp>, b: seq<DirOp>)
    ensures Replay(m, a + b) == Replay(Replay(m, a), b)
  {
    if b == [] {
      assert a + b == a;
    } else {
      var front := b[..|b| - 1];
      assert (a + b)[..|a + b| - 1] == a + front;
      ReplayAppend(m, a, front);
    }
  }

  // ---- consequences of the invariant ----

  /** Replaying any of the pending operations over the durable names yields the durable history, or
      that history with the pending entry, and never a third thing.  */
  lemma ReplayOutcome(d: Disk, h: Hist, next: Option<Entry>, kept: seq<DirOp>) returns (h': Hist)
    requires Holds(d, h, next)
    requires forall op :: op in kept ==> op in d.ops
    ensures h' == h || (next.Some? && h' == Snoc(h, next.value))
    ensures Rooted(h')
    ensures (exists op :: op in kept && op.name.Leaf?) ==> h' == Seen(h, next)
    ensures (forall op :: op in kept ==> !op.name.Leaf?) ==> h' == h
    ensures forall n :: n in Replay(d.durable, kept) ==> !n.Foreign? && Replay(d.durable, kept)[n] in d.files
    ensures forall g :: Leaf(g) in Replay(d.durable, kept) <==> g in Digests(h')
    ensures forall g :: g in Digests(h') ==> d.files[Replay(d.durable, kept)[Leaf(g)]] == File(g.content, true)
  {
    var m := Replay(d.durable, kept);
    h' := if exists op :: op in kept && op.name.Leaf? then Seen(h, next) else h;
    forall n | n in m
      ensures !n.Foreign? && m[n] in d.files
      ensures n.Leaf? ==> n.digest in Digests(h') && d.files[m[n]] == File(n.digest.content, true)
    {
      ReplayProvenance(d.durable, kept, n);
      if Link(n, m[n]) in kept {
        assert OpHolds(d, h, next, Link(n, m[n]));
      }
    }
    forall g | g in Digests(h')
      ensures Leaf(g) in m
    {
      if g in Digests(h) {
        if next.Some? {
          NextDigestIsFresh(h, next.value);
        }
        assert forall op :: op in kept ==> OpHolds(d, h, next, op);
        ReplayUntouched(d.durable, kept, Leaf(g));
      } else {
        var op :| op in kept && op.name.Leaf?;
        assert OpHolds(d, h, next, op);
        assert op.name == Leaf(g);
        assert forall o :: o in kept ==> OpHolds(d, h, next, o);
        ReplayLinked(d.durable, kept, Leaf(g));
      }
    }
  }

  /** A running process reads the durable history plus the pending entry. */
  lemma ViewReads(d: Disk, h: Hist, next: Option<Entry>)
    requires Holds(d, h, next)
    ensures ReadsAs(d, Seen(h, next))
  {
    var h' := ReplayOutcome(d, h, next, d.ops);
    if next.Some? {
      var op :| op in d.ops && op.name == Leaf(NextDigest(h, next.value));
      assert h' == Seen(h, next);
    } else {
      assert forall op :: op in d.ops ==> OpHolds(d, h, next, op);
    }
  }

  /** Whatever a power loss keeps, the directory then holds the old history or the old history plus
      exactly the pending entry.  */
  lemma PowerLossOutcome(d: Disk, h: Hist, next: Option<Entry>, d': Disk) returns (h': Hist)
    requires Holds(d, h, next) && PowerLoss(d, d')
    ensures h' == h || (next.Some? && h' == Snoc(h, next.value))
    ensures Holds(d', h', None) && ReadsAs(d', h')
  {
    var kept :| Selection(kept, d.ops) && d'.durable == Replay(d.durable, kept);
    SelectionIsSubset(kept, d.ops);
    h' := ReplayOutcome(d, h, next, kept);
    ViewReads(d', h', None);
  }

  lemma WritebackOutcome(d: Disk, h: Hist, next: Option<Entry>, d': Disk) returns (h': Hist, next': Option<Entry>)
    requires Holds(d, h, next) && Writeback(d, d')
    ensures (h', next') == (h, next) || (next.Some? && h' == Snoc(h, next.value) && next'.None?)
    ensures Holds(d', h', next') && View(d') == View(d)
  {
    if d'.ops == d.ops && d'.durable == d.durable {
      h', next' := h, next;
      assert forall op :: op in d.ops ==> OpHolds(d, h, next, op);
    } else {
      h' := ReplayOutcome(d, h, next, d.ops);
      next' := None;
      ViewReads(d, h, next);
      ReadsAsUnique(d, h', Seen(h, next));
    }
  }

  lemma WritebackPrivate(d: Disk, d': Disk, f: nat)
    requires Writeback(d, d') && Private(d, f)
    ensures Private(d', f)
  {
    forall n | n in View(d) && n.Leaf?
      ensures View(d)[n] != f
    {
      ReplayProvenance(d.durable, d.ops, n);
    }
  }

  // ---- each primitive keeps the invariant ----

  lemma CreateStageHolds(d: Disk, h: Hist, next: Option<Entry>, f: nat)
    requires Holds(d, h, next) && f !in d.files
    ensures Holds(CreateStage(d, f), h, next) && Private(CreateStage(d, f), f)
    ensures Stage in View(CreateStage(d, f)) && View(CreateStage(d, f))[Stage] == f
    ensures forall n :: n != Stage ==> (n in View(CreateStage(d, f)) <==> n in View(d))
  {
    var d' := CreateStage(d, f);
    assert d'.ops[..|d'.ops| - 1] == d.ops;
    forall op | op in d'.ops
      ensures OpHolds(d', h, next, op)
    {
      assert op == Link(Stage, f) || OpHolds(d, h, next, op);
    }
    KeepsPending(d, d', h, next);
  }

  /** More operations leave the pending name pending. */
  lemma KeepsPending(d: Disk, d': Disk, h: Hist, next: Option<Entry>)
    requires next.Some? ==> PendingLeaf(d, NextDigest(h, next.value))
    requires d.ops <= d'.ops
    ensures next.Some? ==> PendingLeaf(d', NextDigest(h, next.value))
  {
    if next.Some? {
      var op :| op in d.ops && op.name == Leaf(NextDigest(h, next.value));
      assert op in d'.ops;
    }
  }

  lemma WriteFileHolds(d: Disk, h: Hist, next: Option<Entry>, f: nat, bytes: Content)
    requires Holds(d, h, next) && f in d.files && Private(d, f)
    ensures Holds(WriteFile(d, f, bytes), h, next) && Private(WriteFile(d, f, bytes), f)
    ensures View(WriteFile(d, f, bytes)) == View(d)
  {
    forall op | op in d.ops
      ensures OpHolds(WriteFile(d, f, bytes), h, next, op)
    {
      assert OpHolds(d, h, next, op);
    }
    KeepsPending(d, WriteFile(d, f, bytes), h, next);
  }

  lemma FlushFileHolds(d: Disk, h: Hist, next: Option<Entry>, f: nat)
    requires Holds(d, h, next) && f in d.files
    ensures Holds(FlushFile(d, f), h, next) && View(FlushFile(d, f)) == View(d)
    ensures Private(d, f) ==> Private(FlushFile(d, f), f)
  {
    forall op | op in d.ops
      ensures OpHolds(FlushFile(d, f), h, next, op)
    {
      assert OpHolds(d, h, next, op);
    }
    KeepsPending(d, FlushFile(d, f), h, next);
  }

  /** Publishing is safe exactly because the staged bytes are already on disk. */
  lemma PublishHolds(d: Disk, h: Hist, e: Entry)
    requires Holds(d, h, None) && Rooted(Snoc(h, e))
    requires Stage in View(d) && View(d)[Stage] in d.files
    requires d.files[View(d)[Stage]] == File(NextDigest(h, e).content, true)
    ensures Holds(PublishStage(d, NextDigest(h, e)), h, Some(e))
    ensures Stage !in View(PublishStage(d, NextDigest(h, e)))
  {
    var g := NextDigest(h, e);
    var d' := PublishStage(d, g);
    assert d'.ops == d.ops + [Link(Leaf(g), View(d)[Stage]), Unlink(Stage)];
    assert Link(Leaf(g), View(d)[Stage]) in d'.ops;
    forall op | op in d'.ops
      ensures OpHolds(d', h, Some(e), op)
    {
      assert op == Link(Leaf(g), View(d)[Stage]) || op == Unlink(Stage) || OpHolds(d, h, None, op);
    }
  }

  lemma UnlinkStageHolds(d: Disk, h: Hist, next: Option<Entry>)
    requires Holds(d, h, next)
    ensures Holds(UnlinkStage(d), h, next)
    ensures Stage !in View(UnlinkStage(d))
  {
    forall op | op in UnlinkStage(d).ops
      ensures OpHolds(UnlinkStage(d), h, next, op)
    {
      assert op == Unlink(Stage) || OpHolds(d, h, next, op);
    }
    KeepsPending(d, UnlinkStage(d), h, next);
  }

  lemma FlushDirectoryHolds(d: Disk, h: Hist, next: Option<Entry>)
    requires Holds(d, h, next)
    ensures Holds(FlushDirectory(d), Seen(h, next), None)
    ensures View(FlushDirectory(d)) == View(d)
  {
    assert Writeback(d, FlushDirectory(d));
    var h', next' := WritebackOutcome(d, h, next, FlushDirectory(d));
    ViewReads(FlushDirectory(d), h', None);
    ViewReads(d, h, next);
    ReadsAsUnique(d, h', Seen(h, next));
  }
}
