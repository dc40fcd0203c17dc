/** The resumable tree copy behind replicate and fork. */
module CopyTree {
  import opened ChainModel
  import opened Effects
  import opened Topology

  /** What a directory walk finds at a name. */
  datatype Entry = DirectoryEntry(mode: nat) | LinkEntry(target: string, mode: nat) | FileEntry(content: string, mode: nat) | OtherEntry

  type Tree = map<Path, Entry>
  type Hash = string -> string

  const LINK_MODE: nat := 0x1FF // rwxrwxrwx

  /** Does a destination entry agree with the snapshot?  A symlink's mode is not compared. */
  predicate Matches(state: PathState, e: Entry, hash: Hash) {
    match state
    case DirectoryState(mode) => e.DirectoryEntry? && e.mode == mode
    case SymlinkState(target, _) => e.LinkEntry? && e.target == target
    case FileState(contentHash, byteLen, mode) =>
      e.FileEntry? && e.mode == mode && hash(e.content) == contentHash && |e.content| == byteLen
    case Absent => false
  }

  /** The path state a walk would record for an entry. */
  function Observed(e: Entry, hash: Hash): Option<PathState> {
    match e
    case DirectoryEntry(mode) => Some(DirectoryState(mode))
    case LinkEntry(target, mode) => Some(SymlinkState(target, mode))
    case FileEntry(content, mode) => Some(FileState(hash(content), |content|, mode))
    case OtherEntry => None
  }

  /** An entry matches when it would be recorded as the snapshot has it, but for a symlink's mode. */
  lemma MatchesWhenObserved(state: PathState, e: Entry, hash: Hash)
    ensures Matches(state, e, hash) <==>
      || Observed(e, hash) == Some(state)
      || (state.SymlinkState? && exists mode :: Observed(e, hash) == Some(SymlinkState(state.target, mode)))
  {
    if e.LinkEntry? {
      assert Observed(e, hash) == Some(SymlinkState(e.target, e.mode));
    }
  }

  /** Can the entry be made?  Only file content is read from the source. */
  predicate Makeable(state: PathState, source: Tree, p: Path, hash: Hash) {
    match state
    case FileState(contentHash, byteLen, _) =>
      p in source && source[p].FileEntry? && hash(source[p].content) == contentHash && |source[p].content| == byteLen
    case Absent => false
    case _ => true
  }

  function Made(state: PathState, source: Tree, p: Path): Entry {
    match state
    case DirectoryState(mode) => DirectoryEntry(mode)
    case SymlinkState(target, _) => LinkEntry(target, LINK_MODE)
    case FileState(_, _, mode) => FileEntry(if p in source && source[p].FileEntry? then source[p].content else "", mode)
    case Absent => OtherEntry
  }

  /** What can be made is what a walk would then record, a symlink with the mode symlinks have; only a file
      needs the source, which must hold content that is recorded the same.  */
  lemma MadeIsObserved(state: PathState, source: Tree, p: Path, hash: Hash)
    ensures Makeable(state, source, p, hash) <==>
      || state.DirectoryState? || state.SymlinkState?
      || (state.FileState? && p in source
          && exists mode :: Observed(source[p], hash) == Some(FileState(state.contentHash, state.byteLen, mode)))
    ensures Makeable(state, source, p, hash) ==>
      Observed(Made(state, source, p), hash) == Some(if state.SymlinkState? then SymlinkState(state.target, 511) else state)
    ensures Makeable(state, source, p, hash) && state.FileState? ==> Made(state, source, p).content == source[p].content
  {
    if state.FileState? && p in source && source[p].FileEntry? {
      assert Observed(source[p], hash) == Some(FileState(hash(source[p].content), |source[p].content|, source[p].mode));
    }
  }

  ghost predicate Grounded(tree: Tree, p: Path) {
    p != [] ==> Parent(p) in tree && tree[Parent(p)].DirectoryEntry?
  }

  /** A tree on disk: rooted, and everything in it sits in a directory. */
  ghost predicate TreeShaped(tree: Tree) {
    [] in tree && tree[[]].DirectoryEntry? && forall p {:trigger Grounded(tree, p)} :: p in tree ==> Grounded(tree, p)
  }

  ghost predicate HasParent(entries: map<Path, PathState>, p: Path) {
    p != [] && (Parent(p) == [] || (Parent(p) in entries && entries[Parent(p)].DirectoryState?))
  }

  ghost predicate ParentClosed(entries: map<Path, PathState>) {
    forall p {:trigger HasParent(entries, p)} :: p in entries ==> HasParent(entries, p)
  }

  /** A listing of the snapshot that names each path once, and every directory before what is in it. */
  ghost predicate Listing(entries: map<Path, PathState>, order: seq<Path>) {
    && (forall p :: p in entries <==> p in order)
    && (forall i, j :: 0 <= i < j < |order| ==> order[i] != order[j])
    && forall i {:trigger order[i]} :: 0 <= i < |order| && order[i] != [] && Parent(order[i]) != [] ==> Parent(order[i]) in order[..i]
  }

  // ---- what a copy amounts to ----

  ghost predicate Consistent(entries: map<Path, PathState>, tree: Tree, hash: Hash) {
    forall p :: p in entries && p in tree ==> Matches(entries[p], tree[p], hash)
  }

  ghost predicate Supplied(entries: map<Path, PathState>, tree: Tree, source: Tree, hash: Hash) {
    forall p :: p in entries && p !in tree ==> Makeable(entries[p], source, p, hash)
  }

  /** `tree` with the absent entries among `done` made. */
  ghost function Grown(entries: map<Path, PathState>, source: Tree, tree: Tree, done: seq<Path>): Tree {
    map p | p in tree.Keys + (set q | q in done && q in entries) :: if p in tree then tree[p] else Made(entries[p], source, p)
  }

  /** A finished copy holds every entry of the snapshot, matching, and everything it held before. */
  lemma FinishedCopyMatches(entries: map<Path, PathState>, source: Tree, tree: Tree, order: seq<Path>, hash: Hash)
    requires Listing(entries, order) && Consistent(entries, tree, hash) && Supplied(entries, tree, source, hash)
    ensures var after := Grown(entries, source, tree, order);
      && (forall p :: p in entries ==> p in after && Matches(entries[p], after[p], hash))
      && (forall p :: p in tree ==> p in after && after[p] == tree[p])
      && (forall p :: p in after ==> p in tree || p in entries)
  {
    var after := Grown(entries, source, tree, order);
    forall p | p in entries ensures p in after && Matches(entries[p], after[p], hash) {
      assert p in order;
      MadeMatches(entries[p], source, p, hash);
    }
  }

  /** It is a tree: everything in it sits in a directory. */
  lemma FinishedCopyIsTree(entries: map<Path, PathState>, source: Tree, tree: Tree, order: seq<Path>, hash: Hash, p: Path)
    requires Listing(entries, order) && ParentClosed(entries) && TreeShaped(tree) && Consistent(entries, tree, hash)
    requires p in Grown(entries, source, tree, order) && p != []
    ensures var after := Grown(entries, source, tree, order); Parent(p) in after && after[Parent(p)].DirectoryEntry?
  {
    if p in tree {
      assert Grounded(tree, p);
    } else {
      assert HasParent(entries, p);
      assert Parent(p) != [] ==> Parent(p) in order;
    }
  }

  lemma MadeMatches(state: PathState, source: Tree, p: Path, hash: Hash)
    ensures Makeable(state, source, p, hash) ==> Matches(state, Made(state, source, p), hash)
  {
  }

  /** What stopping after the first `i` entries has added. */
  lemma StoppedTree(entries: map<Path, PathState>, source: Tree, tree: Tree, order: seq<Path>, i: nat, hash: Hash)
    requires Listing(entries, order) && i <= |order|
    requires forall p :: p in order[..i] && p !in tree ==> Makeable(entries[p], source, p, hash)
    ensures var stopped := Grown(entries, source, tree, order[..i]);
      && (forall p :: p in tree ==> p in stopped && stopped[p] == tree[p])
      && (forall p :: p in stopped && p !in tree ==>
            p in entries && stopped[p] == Made(entries[p], source, p) && Makeable(entries[p], source, p, hash))
  {
    forall p | p in order[..i] ensures p in entries {
      assert p in order;
    }
  }

  lemma GrownTwice(entries: map<Path, PathState>, source: Tree, tree: Tree, order: seq<Path>, stopped: Tree)
    requires Listing(entries, order)
    requires forall p :: p in tree ==> p in stopped && stopped[p] == tree[p]
    requires forall p :: p in stopped && p !in tree ==> p in entries && stopped[p] == Made(entries[p], source, p)
    ensures Grown(entries, source, stopped, order) == Grown(entries, source, tree, order)
  {
    var once, twice := Grown(entries, source, tree, order), Grown(entries, source, stopped, order);
    forall p ensures p in once <==> p in twice {}
    forall p | p in once ensures once[p] == twice[p] {}
  }

  lemma SameVerdict(entries: map<Path, PathState>, source: Tree, tree: Tree, stopped: Tree, hash: Hash)
    requires forall p :: p in tree ==> p in stopped && stopped[p] == tree[p]
    requires forall p :: p in stopped && p !in tree ==>
      p in entries && stopped[p] == Made(entries[p], source, p) && Makeable(entries[p], source, p, hash)
    ensures Consistent(entries, stopped, hash) && Supplied(entries, stopped, source, hash)
      <==> Consistent(entries, tree, hash) && Supplied(entries, tree, source, hash)
  {
    if Consistent(entries, stopped, hash) && Supplied(entries, stopped, source, hash) {
      forall p | p in entries && p in tree ensures Matches(entries[p], tree[p], hash) {
        assert p in stopped;
      }
      forall p | p in entries && p !in tree ensures Makeable(entries[p], source, p, hash) {
        assert p in stopped || p !in stopped;
      }
    }
  }

  /** Stopping after any whole number of entries and running again gives the tree of one run, and is
      refused exactly when one run would have been.  */
  lemma RerunIsOneRun(entries: map<Path, PathState>, source: Tree, tree: Tree, order: seq<Path>, i: nat, hash: Hash)
    requires Listing(entries, order) && i <= |order|
    requires forall p :: p in order[..i] && p !in tree ==> Makeable(entries[p], source, p, hash)
    ensures var stopped := Grown(entries, source, tree, order[..i]);
      && Grown(entries, source, stopped, order) == Grown(entries, source, tree, order)
      && (Consistent(entries, stopped, hash) && Supplied(entries, stopped, source, hash)
          <==> Consistent(entries, tree, hash) && Supplied(entries, tree, source, hash))
  {
    var stopped := Grown(entries, source, tree, order[..i]);
    StoppedTree(entries, source, tree, order, i, hash);
    GrownTwice(entries, source, tree, order, stopped);
    SameVerdict(entries, source, tree, stopped, hash);
  }

  /** Growing by one more listed entry. */
  lemma GrowsByOne(entries: map<Path, PathState>, source: Tree, tree: Tree, order: seq<Path>, i: nat)
    requires Listing(entries, order) && i < |order|
    ensures var p := order[i]; p in entries
    ensures var p, now, next := order[i], Grown(entries, source, tree, order[..i]), Grown(entries, source, tree, order[..i + 1]);
      && (p in now <==> p in tree)
      && next == (if p in tree then now else now[p := Made(entries[p], source, p)])
  {
    var p := order[i];
    assert order[..i + 1] == order[..i] + [p];
    assert p !in order[..i] && p in entries;
    GrownWith(entries, source, tree, order[..i], order[..i + 1], p);
  }

  lemma GrownWith(entries: map<Path, PathState>, source: Tree, tree: Tree, done: seq<Path>, more: seq<Path>, p: Path)
    requires p in entries && p !in done && forall q :: q in more <==> q in done || q == p
    ensures var now, next := Grown(entries, source, tree, done), Grown(entries, source, tree, more);
      && (p in now <==> p in tree)
      && next == (if p in tree then now else now[p := Made(entries[p], source, p)])
  {
    var now, next := Grown(entries, source, tree, done), Grown(entries, source, tree, more);
    var stepped := if p in tree then now else now[p := Made(entries[p], source, p)];
    forall q ensures q in next <==> q in stepped {}
    forall q | q in next ensures next[q] == stepped[q] {}
  }

  // ---- what a copy changes ----

  /** The directories that making the absent entries among `done` changes: the one each is made in, and each
      directory made.  */
  ghost function Changed(entries: map<Path, PathState>, tree: Tree, done: seq<Path>): set<Path> {
    (set p | p in done && p in entries && p !in tree && p != [] :: Parent(p))
    + (set p | p in done && p in entries && p !in tree && entries[p].DirectoryState?)
  }

  /** The directories that making one entry changes. */
  function ChangedFor(entries: map<Path, PathState>, p: Path): set<Path>
    requires p in entries && p != []
  {
    {Parent(p)} + (if entries[p].DirectoryState? then {p} else {})
  }

  lemma ChangesWith(entries: map<Path, PathState>, tree: Tree, done: seq<Path>, more: seq<Path>, p: Path)
    requires p in entries && p != [] && forall q :: q in more <==> q in done || q == p
    ensures Changed(entries, tree, more) == Changed(entries, tree, done) + (if p in tree then {} else ChangedFor(entries, p))
  {
    forall x ensures x in Changed(entries, tree, more) <==>
      x in Changed(entries, tree, done) || (p !in tree && x in ChangedFor(entries, p))
    {
      ChangesIn(entries, tree, done, x);
      ChangesIn(entries, tree, more, x);
      assert ChangedBy(entries, tree, p, x) <==> p !in tree && x in ChangedFor(entries, p);
    }
  }

  lemma ChangesByOne(entries: map<Path, PathState>, tree: Tree, order: seq<Path>, i: nat)
    requires Listing(entries, order) && ParentClosed(entries) && i < |order|
    ensures order[i] in entries && order[i] != []
    ensures Changed(entries, tree, order[..i + 1])
         == Changed(entries, tree, order[..i]) + (if order[i] in tree then {} else ChangedFor(entries, order[i]))
  {
    assert order[i] in entries && HasParent(entries, order[i]);
    assert order[..i + 1] == order[..i] + [order[i]];
    ChangesWith(entries, tree, order[..i], order[..i + 1], order[i]);
  }

  /** `x` is changed by making some entry. */
  ghost predicate ChangedBy(entries: map<Path, PathState>, tree: Tree, p: Path, x: Path) {
    p in entries && p !in tree && ((p != [] && x == Parent(p)) || (x == p && entries[p].DirectoryState?))
  }

  lemma ChangesIn(entries: map<Path, PathState>, tree: Tree, done: seq<Path>, x: Path)
    ensures x in Changed(entries, tree, done) <==> exists p :: p in done && ChangedBy(entries, tree, p, x)
  {
    if x in (set p | p in done && p in entries && p !in tree && p != [] :: Parent(p)) {
      var p :| p in done && p in entries && p !in tree && p != [] && Parent(p) == x;
      assert ChangedBy(entries, tree, p, x);
    } else if x in Changed(entries, tree, done) {
      assert ChangedBy(entries, tree, x, x);
    }
  }

  /** A stopped run and its rerun change between them what one run changes. */
  lemma ChangesSplit(entries: map<Path, PathState>, source: Tree, tree: Tree, order: seq<Path>, i: nat)
    requires Listing(entries, order) && i <= |order|
    ensures var stopped := Grown(entries, source, tree, order[..i]);
      Changed(entries, tree, order) == Changed(entries, tree, order[..i]) + Changed(entries, stopped, order)
  {
    var stopped := Grown(entries, source, tree, order[..i]);
    forall p ensures p in stopped <==> p in tree || (p in order[..i] && p in entries) {}
    forall x ensures x in Changed(entries, tree, order) <==> x in Changed(entries, tree, order[..i]) + Changed(entries, stopped, order) {
      ChangesIn(entries, tree, order, x);
      ChangesIn(entries, tree, order[..i], x);
      ChangesIn(entries, stopped, order, x);
      if exists p :: p in order && ChangedBy(entries, tree, p, x) {
        var p :| p in order && ChangedBy(entries, tree, p, x);
        assert if p in order[..i] then ChangedBy(entries, tree, p, x) else ChangedBy(entries, stopped, p, x);
      }
      if exists p :: p in order && ChangedBy(entries, stopped, p, x) {
        var p :| p in order && ChangedBy(entries, stopped, p, x);
        assert ChangedBy(entries, tree, p, x);
      }
    }
  }

  /** What is left unflushed when a run stops after `i` entries and is run again to its end. */
  ghost function LeftBy(entries: map<Path, PathState>, source: Tree, tree: Tree, dirty: set<Path>, order: seq<Path>, i: nat): set<Path>
    requires i <= |order|
  {
    dirty + Changed(entries, tree, order[..i]) - Changed(entries, Grown(entries, source, tree, order[..i]), order)
  }

  /** The rerun leaves what one run leaves, and beyond it exactly the directories only the stopped run changed. */
  lemma RerunLeaves(entries: map<Path, PathState>, source: Tree, tree: Tree, dirty: set<Path>, order: seq<Path>, i: nat)
    requires Listing(entries, order) && i <= |order|
    ensures var again := Changed(entries, Grown(entries, source, tree, order[..i]), order);
      && LeftBy(entries, source, tree, dirty, order, i)
         == (dirty - Changed(entries, tree, order)) + (Changed(entries, tree, order[..i]) - again)
      && (LeftBy(entries, source, tree, dirty, order, i) == {} <==> dirty + Changed(entries, tree, order[..i]) <= again)
  {
    ChangesSplit(entries, source, tree, order, i);
    var stopped, again := Changed(entries, tree, order[..i]), Changed(entries, Grown(entries, source, tree, order[..i]), order);
    NothingLeft(dirty + stopped, again);
    assert dirty + stopped - again == (dirty - (stopped + again)) + (stopped - again);
  }

  lemma NothingLeft(a: set<Path>, b: set<Path>)
    ensures a - b == {} <==> a <= b
  {
    forall x | a - b == {} && x in a ensures x in b {
      assert x !in a - b;
    }
  }

  /** So a rerun is not durable as one run is: stopped after a directory and the file in it, it flushes
      neither, and the flush of the root that follows does not reach the directory.  */
  lemma RerunCanLeaveUnflushed(source: Tree, file: PathState)
    requires file.FileState?
    ensures var d, f := ["d"], ["d", "f"];
      var entries, order, tree := map[d := DirectoryState(0), f := file], [d, f], map[[] := DirectoryEntry(0)];
      && Listing(entries, order) && ParentClosed(entries) && TreeShaped(tree)
      && LeftBy(entries, source, tree, {}, order, 2) - {[]} == {d}
  {
    var d: Path, f: Path := ["d"], ["d", "f"];
    var entries: map<Path, PathState> := map[d := DirectoryState(0), f := file];
    var order, tree: Tree := [d, f], map[[] := DirectoryEntry(0)];
    assert Parent(d) == [] && Parent(f) == d;
    assert order[..2] == order && order[..1] == [d];
    assert order[0] == d && order[1] == f;
    var stopped := Grown(entries, source, tree, order);
    forall x ensures x in Changed(entries, tree, order) <==> x == [] || x == d {
      ChangesIn(entries, tree, order, x);
      assert d in order && f in order;
      assert ChangedBy(entries, tree, d, []) && ChangedBy(entries, tree, d, d);
    }
    forall x ensures x !in Changed(entries, stopped, order) {
      ChangesIn(entries, stopped, order, x);
    }
  }

  // ---- the copy ----

  datatype Outcome = Copied(missing: seq<Path>) | Refused

  /** The destination, with the files and directories whose last change is not flushed. */
  class Destination {
    var tree: Tree
    var dirty: set<Path>

    /** Makes one entry; a file is flushed before it is left, the directories it changed are not yet. */
    method Make(p: Path, state: PathState, source: Tree)
      requires p != [] && p !in tree && !state.Absent?
      modifies this
      ensures tree == old(tree)[p := Made(state, source, p)]
      ensures dirty == old(dirty) + {Parent(p)} + (if state.DirectoryState? then {p} else {})
    {
      tree := tree[p := Made(state, source, p)];
      dirty := dirty + {Parent(p)} + (if state.DirectoryState? then {p} else {});
    }

    /** One entry: kept if it matches, made if it is absent and can be, and otherwise refused. */
    method CopyEntry(p: Path, entries: map<Path, PathState>, source: Tree, hash: Hash) returns (ok: bool, changed: set<Path>)
      requires p in entries && p != []
      modifies this
      ensures ok <==> if p in old(tree) then Matches(entries[p], old(tree)[p], hash) else Makeable(entries[p], source, p, hash)
      ensures ok && p !in old(tree) ==> tree == old(tree)[p := Made(entries[p], source, p)] && changed == ChangedFor(entries, p)
      ensures ok && p !in old(tree) ==> dirty == old(dirty) + changed
      ensures !ok || p in old(tree) ==> tree == old(tree) && dirty == old(dirty) && changed == {}
    {
      changed := {};
      if p in tree {
        ok := Matches(entries[p], tree[p], hash);
      } else {
        ok := Makeable(entries[p], source, p, hash);
        if ok {
          Make(p, entries[p], source);
          changed := ChangedFor(entries, p);
        }
      }
    }

    method FlushDirectory(p: Path)
      modifies this`dirty
      ensures dirty == old(dirty) - {p}
    {
      dirty := dirty - {p};
    }

    method FlushAll(changed: set<Path>)
      modifies this`dirty
      ensures dirty == old(dirty) - changed
    {
      var todo := changed;
      while todo != {}
        invariant todo <= changed && dirty == old(dirty) - (changed - todo)
        decreases todo
      {
        var p :| p in todo;
        FlushDirectory(p);
        todo := todo - {p};
      }
    }

    /** With a source: succeeds exactly when every present entry matches and every absent one can be made,
        and then holds the finished copy, with the directories this call changed flushed and no others.  A
        refusal leaves the tree after some whole number of entries and what that changed unflushed, so
        nothing that was there has changed.  */
    method CopyFrom(entries: map<Path, PathState>, order: seq<Path>, source: Tree, hash: Hash) returns (outcome: Outcome)
      requires Listing(entries, order) && ParentClosed(entries) && TreeShaped(tree)
      modifies this
      ensures outcome.Copied? <==> Consistent(entries, old(tree), hash) && Supplied(entries, old(tree), source, hash)
      ensures outcome.Copied? ==> outcome.missing == [] && tree == Grown(entries, source, old(tree), order)
      ensures outcome.Copied? ==> dirty == old(dirty) - Changed(entries, old(tree), order)
      ensures outcome.Refused? ==> exists i :: 0 <= i < |order| && StoppedAt(entries, source, old(tree), old(dirty), order, i, tree, dirty)
    {
      var changed: set<Path> := {};
      ghost var base, unflushed := tree, dirty;
      assert tree == Grown(entries, source, base, order[..0]);
      assert Changed(entries, base, order[..0]) == {};
      for i := 0 to |order|
        invariant StoppedAt(entries, source, base, unflushed, order, i, tree, dirty) && changed == Changed(entries, base, order[..i])
        invariant Passed(entries, source, base, order, i, hash)
      {
        NextEntry(entries, source, base, unflushed, order, i, hash, tree, dirty);
        var ok, made := CopyEntry(order[i], entries, source, hash);
        if !ok {
          return Refused;
        }
        changed := changed + made;
        PassesOne(entries, source, base, order, i, hash);
      }
      assert order[..|order|] == order;
      FlushAll(changed);
      AllPassed(entries, source, base, order, hash);
      return Copied([]);
    }

    /** The copy and the flush of the root that the tree proof is stored after. */
    method CopyAndSeal(entries: map<Path, PathState>, order: seq<Path>, source: Tree, hash: Hash) returns (outcome: Outcome)
      requires Listing(entries, order) && ParentClosed(entries) && TreeShaped(tree)
      modifies this
      ensures outcome.Copied? <==> Consistent(entries, old(tree), hash) && Supplied(entries, old(tree), source, hash)
      ensures outcome.Copied? ==> tree == Grown(entries, source, old(tree), order)
      ensures outcome.Copied? ==> dirty == old(dirty) - Changed(entries, old(tree), order) - {[]}
    {
      outcome := CopyFrom(entries, order, source, hash);
      if outcome.Copied? {
        FlushDirectory([]);
      }
    }

    /** Without a source: returns exactly the absent entries, or refuses exactly when a present one does
        not match.  A directory known to be missing is not looked into.  */
    method MissingEntries(entries: map<Path, PathState>, order: seq<Path>, hash: Hash) returns (outcome: Outcome)
      requires Listing(entries, order) && ParentClosed(entries) && TreeShaped(tree)
      ensures outcome.Copied? <==> Consistent(entries, tree, hash)
      ensures outcome.Copied? ==> forall p :: p in outcome.missing <==> p in entries && p !in tree
    {
      var missing: seq<Path>, missingPrefixes: set<Path> := [], {};
      for i := 0 to |order|
        invariant forall p :: p in missing <==> p in order[..i] && p !in tree
        invariant forall p :: p in missingPrefixes <==> p in order[..i] && p !in tree && entries[p].DirectoryState?
        invariant forall p :: p in order[..i] && p in tree ==> Matches(entries[p], tree[p], hash)
      {
        var path := order[i];
        assert order[..i + 1] == order[..i] + [path];
        assert path in entries && HasParent(entries, path);
        assert Parent(path) != [] ==> Parent(path) in order[..i];
        if path in tree {
          assert Grounded(tree, path);
        }
        if Parent(path) in missingPrefixes {
          missing := missing + [path];
          if entries[path].DirectoryState? {
            missingPrefixes := missingPrefixes + {path};
          }
        } else {
          assert Parent(path) in tree && tree[Parent(path)].DirectoryEntry?;
          if path in tree {
            if !Matches(entries[path], tree[path], hash) {
              return Refused;
            }
          } else {
            missing := missing + [path];
            if entries[path].DirectoryState? {
              missingPrefixes := missingPrefixes + {path};
            }
          }
        }
      }
      assert order[..|order|] == order;
      return Copied(missing);
    }
  }

  /** The destination after `i` entries, before anything is flushed. */
  ghost predicate StoppedAt(entries: map<Path, PathState>, source: Tree, base: Tree, unflushed: set<Path>, order: seq<Path>, i: nat,
                            tree: Tree, dirty: set<Path>)
    requires i <= |order|
  {
    tree == Grown(entries, source, base, order[..i]) && dirty == unflushed + Changed(entries, base, order[..i])
  }

  /** The next entry: where it goes is there, and what passing or making it gives. */
  lemma NextEntry(entries: map<Path, PathState>, source: Tree, base: Tree, unflushed: set<Path>, order: seq<Path>, i: nat, hash: Hash,
                  tree: Tree, dirty: set<Path>)
    requires Listing(entries, order) && ParentClosed(entries) && TreeShaped(base) && i < |order|
    requires StoppedAt(entries, source, base, unflushed, order, i, tree, dirty) && Passed(entries, source, base, order, i, hash)
    ensures var p := order[i];
      && p in entries && p != [] && Parent(p) in tree && tree[Parent(p)].DirectoryEntry?
      && (p in tree <==> p in base) && (p in base ==> tree[p] == base[p])
    ensures order[i] in tree ==> StoppedAt(entries, source, base, unflushed, order, i + 1, tree, dirty)
    ensures order[i] !in tree ==> StoppedAt(entries, source, base, unflushed, order, i + 1,
      tree[order[i] := Made(entries[order[i]], source, order[i])], dirty + ChangedFor(entries, order[i]))
    ensures Changed(entries, base, order[..i + 1])
         == Changed(entries, base, order[..i]) + (if order[i] in tree then {} else ChangedFor(entries, order[i]))
  {
    GrowsByOne(entries, source, base, order, i);
    ChangesByOne(entries, base, order, i);
    ParentIsThere(entries, source, base, order, i, hash);
  }

  /** The first `i` entries were matched or could be made. */
  ghost predicate Passed(entries: map<Path, PathState>, source: Tree, base: Tree, order: seq<Path>, i: nat, hash: Hash)
    requires i <= |order|
  {
    forall k :: 0 <= k < i ==> PassesAt(entries, source, base, order[k], hash)
  }

  ghost predicate PassesAt(entries: map<Path, PathState>, source: Tree, base: Tree, p: Path, hash: Hash) {
    p in entries && if p in base then Matches(entries[p], base[p], hash) else Makeable(entries[p], source, p, hash)
  }

  lemma PassesOne(entries: map<Path, PathState>, source: Tree, base: Tree, order: seq<Path>, i: nat, hash: Hash)
    requires i < |order| && Passed(entries, source, base, order, i, hash) && PassesAt(entries, source, base, order[i], hash)
    ensures Passed(entries, source, base, order, i + 1, hash)
  {
  }

  lemma AllPassed(entries: map<Path, PathState>, source: Tree, base: Tree, order: seq<Path>, hash: Hash)
    requires Listing(entries, order) && Passed(entries, source, base, order, |order|, hash)
    ensures Consistent(entries, base, hash) && Supplied(entries, base, source, hash)
  {
    forall p | p in entries ensures PassesAt(entries, source, base, p, hash) {
      assert p in order;
    }
  }

  /** The directory that holds the next entry is there to be opened. */
  lemma ParentIsThere(entries: map<Path, PathState>, source: Tree, base: Tree, order: seq<Path>, i: nat, hash: Hash)
    requires Listing(entries, order) && ParentClosed(entries) && TreeShaped(base) && i < |order|
    requires Passed(entries, source, base, order, i, hash)
    ensures var now := Grown(entries, source, base, order[..i]);
      order[i] != [] && Parent(order[i]) in now && now[Parent(order[i])].DirectoryEntry?
  {
    assert order[i] in entries && HasParent(entries, order[i]);
    if Parent(order[i]) != [] {
      var k :| 0 <= k < i && order[k] == Parent(order[i]);
      assert PassesAt(entries, source, base, order[k], hash);
    }
  }
}
