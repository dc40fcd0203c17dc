/** Passes 2 and 3 over scanned rows: linkage, then entry classes. */
module Inspect {
  import opened ChainModel
  import opened ChainRules

  datatype Row = Row(digest: Digest, previous: Option<Digest>, entry: Entry)

  datatype DefectKind =
    | ForeignLeaf | NameBytesMismatch | UndecodableEntry
    | GenesisCount | MissingPredecessor | SiblingBranch | Cycle | OrphanHistory
    | SettlementWithoutRegistration | SettlementTxidMismatch | DuplicateSettlement
    | DuplicateRegistration | FulfillsUnresolved | DuplicateFulfillment

  datatype Linearized = Linear(order: seq<(Digest, Entry)>, tip: Digest) | Broken(kind: DefectKind)

  // ---- what linkage means ----

  predicate Distinct(rows: seq<Row>) {
    forall i, j :: 0 <= i < j < |rows| ==> rows[i].digest != rows[j].digest
  }

  /** `a` lists exactly the given rows as one predecessor chain from its genesis. */
  ghost predicate Arrangement(rows: seq<Row>, a: seq<Row>) {
    && a != [] && Distinct(a)
    && (forall row :: row in rows <==> row in a)
    && Linked(a)
  }

  /** Each row names the one before it, and the first names none. */
  ghost predicate Linked(a: seq<Row>) {
    && (a != [] ==> a[0].previous.None?)
    && forall i, j :: 0 <= i && j == i + 1 < |a| ==> a[j].previous == Some(a[i].digest)
  }

  lemma LinkedPosition(a: seq<Row>, m: nat, n: nat)
    requires Linked(a) && Distinct(a) && m < |a| && n < |a| && a[m].previous == Some(a[n].digest)
    ensures m == n + 1
  {
    if m > 0 {
      assert a[m].previous == Some(a[m - 1].digest);
    }
  }

  lemma SamePrevious(a: seq<Row>, m: nat, n: nat)
    requires Linked(a) && Distinct(a) && m < |a| && n < |a| && a[m].previous == a[n].previous
    ensures m == n
  {
    assert n > 0 ==> a[n].previous == Some(a[n - 1].digest);
    if m > 0 {
      assert a[m].previous == Some(a[m - 1].digest);
      LinkedPosition(a, n, m - 1);
    }
  }

  function Pairs(a: seq<Row>): (p: seq<(Digest, Entry)>)
    ensures |p| == |a| && forall i :: 0 <= i < |a| ==> p[i] == (a[i].digest, a[i].entry)
  {
    if a == [] then [] else Pairs(a[..|a| - 1]) + [(a[|a| - 1].digest, a[|a| - 1].entry)]
  }

  /** The digests of the rows naming `previous` as their predecessor, in row order. */
  function Named(rows: seq<Row>, previous: Option<Digest>): seq<Digest> {
    if rows == [] then [] else
    var last := rows[|rows| - 1];
    Named(rows[..|rows| - 1], previous) + (if last.previous == previous then [last.digest] else [])
  }

  ghost predicate Dangling(rows: seq<Row>) {
    exists i :: 0 <= i < |rows| && rows[i].previous.Some? && forall j :: 0 <= j < |rows| ==> Some(rows[j].digest) != rows[i].previous
  }

  ghost predicate Branching(rows: seq<Row>) {
    exists p :: |Named(rows, Some(p))| > 1
  }

  lemma {:induction false} NamedMember(rows: seq<Row>, previous: Option<Digest>, d: Digest)
    requires d in Named(rows, previous)
    ensures exists i :: 0 <= i < |rows| && rows[i].digest == d && rows[i].previous == previous
  {
    var front, last := rows[..|rows| - 1], rows[|rows| - 1];
    if last.previous == previous && last.digest == d {
      assert rows[|rows| - 1].digest == d;
    } else {
      NamedMember(front, previous, d);
      var i :| 0 <= i < |front| && front[i].digest == d && front[i].previous == previous;
      assert rows[i] == front[i];
    }
  }

  lemma {:induction false} NamedContains(rows: seq<Row>, i: nat)
    requires i < |rows|
    ensures rows[i].digest in Named(rows, rows[i].previous)
  {
    if i < |rows| - 1 {
      NamedContains(rows[..|rows| - 1], i);
    }
  }

  lemma {:induction false} NamedAlone(rows: seq<Row>, previous: Option<Digest>)
    requires forall i, j :: 0 <= i < j < |rows| ==> !(rows[i].previous == previous && rows[j].previous == previous)
    ensures |Named(rows, previous)| <= 1
  {
    if rows != [] {
      var front, last := rows[..|rows| - 1], rows[|rows| - 1];
      NamedAlone(front, previous);
      if last.previous == previous && Named(front, previous) != [] {
        NamedMember(front, previous, Named(front, previous)[0]);
      }
    }
  }

  lemma {:induction false} NamedTwice(rows: seq<Row>, previous: Option<Digest>, i: nat, j: nat)
    requires i < j < |rows| && rows[i].previous == previous && rows[j].previous == previous
    ensures |Named(rows, previous)| > 1
  {
    var front := rows[..|rows| - 1];
    if j < |rows| - 1 {
      NamedTwice(front, previous, i, j);
    } else {
      NamedContains(front, i);
    }
  }

  /** How many rows name `previous`: none, or more than one. */
  lemma NamedCounts(rows: seq<Row>, previous: Option<Digest>)
    ensures Named(rows, previous) == [] <==> forall i :: 0 <= i < |rows| ==> rows[i].previous != previous
    ensures |Named(rows, previous)| > 1 <==> exists i, j :: 0 <= i < j < |rows| && rows[i].previous == previous && rows[j].previous == previous
  {
    forall i | 0 <= i < |rows| && rows[i].previous == previous ensures Named(rows, previous) != [] {
      NamedContains(rows, i);
    }
    if Named(rows, previous) != [] {
      NamedMember(rows, previous, Named(rows, previous)[0]);
    }
    if i, j :| 0 <= i < j < |rows| && rows[i].previous == previous && rows[j].previous == previous {
      NamedTwice(rows, previous, i, j);
    } else {
      NamedAlone(rows, previous);
    }
  }

  lemma DanglingIs(rows: seq<Row>)
    ensures Dangling(rows) <==>
      exists row :: row in rows && row.previous.Some? && forall other :: other in rows ==> other.digest != row.previous.value
  {
    if Dangling(rows) {
      var i :| 0 <= i < |rows| && rows[i].previous.Some? && forall j :: 0 <= j < |rows| ==> Some(rows[j].digest) != rows[i].previous;
      assert rows[i] in rows;
    }
    if row :| row in rows && row.previous.Some? && forall other :: other in rows ==> other.digest != row.previous.value {
      var i :| 0 <= i < |rows| && rows[i] == row;
    }
  }

  lemma BranchingIs(rows: seq<Row>)
    ensures Branching(rows) <==> exists i, j :: 0 <= i < j < |rows| && rows[i].previous.Some? && rows[i].previous == rows[j].previous
  {
    if Branching(rows) {
      var p :| |Named(rows, Some(p))| > 1;
      NamedCounts(rows, Some(p));
    }
    if i, j :| 0 <= i < j < |rows| && rows[i].previous.Some? && rows[i].previous == rows[j].previous {
      NamedTwice(rows, Some(rows[i].previous.value), i, j);
    }
  }

  /** What the counted defects are: not exactly one genesis, a predecessor no row carries, two rows with one
      predecessor.  */
  lemma LinkageDefectsAre(rows: seq<Row>)
    ensures |Named(rows, None)| != 1 <==>
      || (forall i :: 0 <= i < |rows| ==> rows[i].previous != None)
      || exists i, j :: 0 <= i < j < |rows| && rows[i].previous == None && rows[j].previous == None
    ensures Dangling(rows) <==>
      exists row :: row in rows && row.previous.Some? && forall other :: other in rows ==> other.digest != row.previous.value
    ensures Branching(rows) <==> exists i, j :: 0 <= i < j < |rows| && rows[i].previous.Some? && rows[i].previous == rows[j].previous
  {
    NamedCounts(rows, None);
    DanglingIs(rows);
    BranchingIs(rows);
  }

  lemma ArrangedAlone(rows: seq<Row>, a: seq<Row>, p: Option<Digest>)
    requires Distinct(rows) && Arrangement(rows, a)
    ensures |Named(rows, p)| <= 1
  {
    forall i, j | 0 <= i < j < |rows|
      ensures !(rows[i].previous == p && rows[j].previous == p)
    {
      assert rows[i] in a && rows[j] in a;
      var m, n :| 0 <= m < |a| && 0 <= n < |a| && a[m] == rows[i] && a[n] == rows[j];
      if a[m].previous == a[n].previous {
        SamePrevious(a, m, n);
      }
    }
    NamedAlone(rows, p);
  }

  lemma ArrangedNamed(rows: seq<Row>, a: seq<Row>, k: nat)
    requires Distinct(rows) && Arrangement(rows, a) && k < |a|
    ensures Named(rows, a[k].previous) == [a[k].digest]
  {
    assert a[k] in rows;
    var i :| 0 <= i < |rows| && rows[i] == a[k];
    NamedContains(rows, i);
    ArrangedAlone(rows, a, a[k].previous);
  }

  /** Rows that can be arranged pass every linkage check. */
  lemma ArrangedRowsPass(rows: seq<Row>, a: seq<Row>)
    requires Distinct(rows) && Arrangement(rows, a)
    ensures Named(rows, None) == [a[0].digest]
    ensures Named(rows, Some(a[|a| - 1].digest)) == []
    ensures !Dangling(rows) && !Branching(rows)
  {
    ArrangedNamed(rows, a, 0);
    var last := a[|a| - 1].digest;
    if Named(rows, Some(last)) != [] {
      NamedMember(rows, Some(last), Named(rows, Some(last))[0]);
      var i :| 0 <= i < |rows| && rows[i].previous == Some(last);
      assert rows[i] in a;
      var m :| 0 <= m < |a| && a[m] == rows[i];
      LinkedPosition(a, m, |a| - 1);
    }
    forall i | 0 <= i < |rows| && rows[i].previous.Some?
      ensures exists j :: 0 <= j < |rows| && Some(rows[j].digest) == rows[i].previous
    {
      assert rows[i] in a;
      var k :| 0 <= k < |a| && a[k] == rows[i];
      assert a[k].previous == Some(a[k - 1].digest);
      assert a[k - 1] in rows;
    }
    forall p ensures |Named(rows, Some(p))| <= 1 {
      ArrangedAlone(rows, a, Some(p));
    }
  }

  /** There is at most one arrangement, so the result cannot depend on the order of the rows. */
  lemma ArrangementUnique(rows: seq<Row>, other: seq<Row>, a: seq<Row>, b: seq<Row>)
    requires forall row :: row in rows <==> row in other
    requires Arrangement(rows, a) && Arrangement(other, b)
    ensures a == b
  {
    SharedPrefix(rows, other, a, b, |b| - 1);
    SharedPrefix(other, rows, b, a, |a| - 1);
  }

  lemma {:induction false} SharedPrefix(rows: seq<Row>, other: seq<Row>, a: seq<Row>, b: seq<Row>, k: nat)
    requires forall row :: row in rows <==> row in other
    requires Arrangement(rows, a) && Arrangement(other, b) && k < |b|
    ensures k < |a| && a[..k + 1] == b[..k + 1]
  {
    assert b[k] in a;
    var m :| 0 <= m < |a| && a[m] == b[k];
    assert m > 0 ==> a[m].previous == Some(a[m - 1].digest);
    if k == 0 {
      assert a[..1] == [a[0]] && b[..1] == [b[0]];
    } else {
      SharedPrefix(rows, other, a, b, k - 1);
      assert a[k - 1] == a[..k][k - 1] == b[..k][k - 1] == b[k - 1];
      assert b[k].previous == Some(b[k - 1].digest);
      LinkedPosition(a, m, k - 1);
      assert a[..k + 1] == a[..k] + [a[k]] && b[..k + 1] == b[..k] + [b[k]];
    }
  }

  // ---- pass 2 ----

  method IndexRows(rows: seq<Row>) returns (byDigest: map<Digest, Entry>, geneses: seq<Digest>)
    ensures Indexes(rows, byDigest)
    ensures byDigest.Keys == DigestSet(rows)
    ensures geneses == Named(rows, None)
  {
    byDigest, geneses := map[], [];
    for i := 0 to |rows|
      invariant byDigest.Keys == DigestSet(rows[..i])
      invariant Distinct(rows) ==> forall k :: 0 <= k < i ==> byDigest[rows[k].digest] == rows[k].entry
      invariant geneses == Named(rows[..i], None)
    {
      assert rows[..i + 1][..i] == rows[..i];
      byDigest := byDigest[rows[i].digest := rows[i].entry];
      if rows[i].previous.None? {
        geneses := geneses + [rows[i].digest];
      }
    }
    assert rows[..|rows|] == rows;
  }

  method HasMissingPredecessor(rows: seq<Row>, byDigest: map<Digest, Entry>) returns (missing: bool)
    requires byDigest.Keys == DigestSet(rows)
    ensures missing <==> Dangling(rows)
  {
    missing := false;
    for i := 0 to |rows|
      invariant !missing
      invariant forall k :: 0 <= k < i && rows[k].previous.Some? ==> rows[k].previous.value in byDigest
    {
      if rows[i].previous.Some? && rows[i].previous.value !in byDigest {
        return true;
      }
    }
  }

  method Successors(rows: seq<Row>) returns (successors: map<Digest, seq<Digest>>, branching: bool)
    ensures LinksOf(rows, successors)
    ensures branching <==> Branching(rows)
  {
    successors, branching := map[], false;
    for i := 0 to |rows|
      invariant LinksOf(rows[..i], successors)
      invariant branching <==> Branching(rows[..i])
    {
      assert rows[..i + 1][..i] == rows[..i];
      if rows[i].previous.Some? {
        var p := rows[i].previous.value;
        var siblings := if p in successors then successors[p] else [];
        successors := successors[p := siblings + [rows[i].digest]];
        if |successors[p]| > 1 {
          branching := true;
          assert |Named(rows[..i + 1], Some(p))| > 1;
        }
        BranchingGrows(rows, i);
      } else {
        BranchingGrows(rows, i);
      }
    }
    assert rows[..|rows|] == rows;
  }

  lemma BranchingGrows(rows: seq<Row>, i: nat)
    requires i < |rows|
    ensures Branching(rows[..i + 1]) <==> Branching(rows[..i]) || (rows[i].previous.Some? && |Named(rows[..i + 1], rows[i].previous)| > 1)
  {
    assert rows[..i + 1][..i] == rows[..i];
    if Branching(rows[..i]) {
      var p :| |Named(rows[..i], Some(p))| > 1;
      assert |Named(rows[..i + 1], Some(p))| > 1;
    }
    if Branching(rows[..i + 1]) {
      var p :| |Named(rows[..i + 1], Some(p))| > 1;
      if rows[i].previous != Some(p) {
        assert |Named(rows[..i], Some(p))| > 1;
      }
    }
  }

  /** With distinct digests a successor is never a row already passed. */
  lemma NoRevisit(rows: seq<Row>, path: seq<Row>, row: Row)
    requires Distinct(rows) && path != [] && Distinct(path) && row in rows
    requires forall q :: q in path ==> q in rows
    requires Linked(path) && Follows(path, row)
    ensures forall q :: q in path ==> q.digest != row.digest
  {
    forall q | q in path
      ensures q.digest != row.digest
    {
      var m :| 0 <= m < |path| && path[m] == q;
      if q.digest == row.digest {
        assert q == row;
        LinkedPosition(path, m, |path| - 1);
      }
    }
  }

  lemma NextArranged(rows: seq<Row>, a: seq<Row>, n: nat, row: Row)
    requires Distinct(rows) && Arrangement(rows, a) && 0 < n <= |a|
    requires row in rows && row.previous == Some(a[n - 1].digest)
    ensures n < |a| && row == a[n]
  {
    assert row in a;
    var m :| 0 <= m < |a| && a[m] == row;
    LinkedPosition(a, m, n - 1);
  }

  lemma CoveredIsArranged(rows: seq<Row>, path: seq<Row>)
    requires Distinct(rows) && path != [] && Distinct(path)
    requires forall q :: q in path ==> q in rows
    requires Linked(path)
    requires forall i :: 0 <= i < |rows| ==> exists q :: q in path && q.digest == rows[i].digest
    ensures Arrangement(rows, path)
  {
  }

  lemma {:induction false} PathFollows(rows: seq<Row>, a: seq<Row>, path: seq<Row>, k: nat)
    requires Distinct(rows) && Arrangement(rows, a) && Linked(path) && k < |path|
    requires forall q :: q in path ==> q in rows
    ensures k < |a| && path[k] == a[k]
  {
    if k == 0 {
      assert path[0] in a;
      var m :| 0 <= m < |a| && a[m] == path[0];
      SamePrevious(a, m, 0);
    } else {
      PathFollows(rows, a, path, k - 1);
      assert path[k].previous == Some(path[k - 1].digest);
      assert path[k] in rows;
      NextArranged(rows, a, k, path[k]);
    }
  }

  /** A walk that ran out of successors has covered the arrangement, if there is one. */
  lemma WalkCovers(rows: seq<Row>, a: seq<Row>, path: seq<Row>)
    requires Distinct(rows) && Arrangement(rows, a) && Linked(path) && path != []
    requires forall q :: q in path ==> q in rows
    requires Named(rows, Some(path[|path| - 1].digest)) == []
    ensures path == a
  {
    forall k | 0 <= k < |path| ensures k < |a| && path[k] == a[k] {
      PathFollows(rows, a, path, k);
    }
    var n := |path|;
    if n < |a| {
      ArrangedNamed(rows, a, n);
    }
  }

  function DigestSet(path: seq<Row>): set<Digest> {
    set q | q in path :: q.digest
  }

  /** A stretch of the chain, from its genesis on. */
  ghost predicate OnPath(rows: seq<Row>, path: seq<Row>) {
    Distinct(path) && Linked(path) && forall q :: q in path ==> q in rows
  }

  predicate Follows(path: seq<Row>, row: Row) {
    row.previous == if path == [] then None else Some(path[|path| - 1].digest)
  }

  ghost predicate Indexes(rows: seq<Row>, byDigest: map<Digest, Entry>) {
    && (forall i :: 0 <= i < |rows| ==> rows[i].digest in byDigest)
    && (Distinct(rows) ==> forall i :: 0 <= i < |rows| ==> byDigest[rows[i].digest] == rows[i].entry)
  }

  lemma DigestsPush(path: seq<Row>, row: Row)
    ensures DigestSet(path + [row]) == DigestSet(path) + {row.digest}
  {
    var after := path + [row];
    forall d ensures d in DigestSet(after) <==> d in DigestSet(path) || d == row.digest {
      if d in DigestSet(path) {
        var q :| q in path && q.digest == d;
        assert q in after;
      }
      assert row in after;
    }
  }

  lemma PathPush(rows: seq<Row>, path: seq<Row>, row: Row)
    requires OnPath(rows, path) && row in rows && Follows(path, row) && row.digest !in DigestSet(path)
    ensures OnPath(rows, path + [row]) && DigestSet(path + [row]) == DigestSet(path) + {row.digest}
    ensures Pairs(path + [row]) == Pairs(path) + [(row.digest, row.entry)]
  {
    DigestsPush(path, row);
    var after := path + [row];
    assert after[..|after| - 1] == path;
    assert Linked(after);
    forall i | 0 <= i < |path| ensures after[i].digest != row.digest {
      assert path[i] in path;
    }
  }

  ghost predicate Walking(rows: seq<Row>, visited: set<Digest>, ordered: seq<(Digest, Entry)>, path: seq<Row>) {
    && OnPath(rows, path) && visited == DigestSet(path)
    && (Distinct(rows) ==> ordered == Pairs(path))
  }

  /** `row`, with digest `tip`, is next; with distinct digests it has not been visited. */
  ghost predicate Ahead(rows: seq<Row>, path: seq<Row>, row: Row, tip: Digest) {
    && row in rows && row.digest == tip && Follows(path, row)
    && (Distinct(rows) ==> tip !in DigestSet(path))
  }

  predicate AtEnd(rows: seq<Row>, path: seq<Row>, tip: Digest) {
    path != [] && tip == path[|path| - 1].digest && Named(rows, Some(tip)) == []
  }

  ghost predicate LinksOf(rows: seq<Row>, successors: map<Digest, seq<Digest>>) {
    && (forall p :: p in successors <==> Named(rows, Some(p)) != [])
    && (forall p :: p in successors ==> successors[p] == Named(rows, Some(p)))
  }

  lemma WalkStep(rows: seq<Row>, byDigest: map<Digest, Entry>, visited: set<Digest>, ordered: seq<(Digest, Entry)>,
                 path: seq<Row>, row: Row, tip: Digest)
    requires Indexes(rows, byDigest) && Walking(rows, visited, ordered, path)
    requires Ahead(rows, path, row, tip) && tip !in visited
    ensures tip in byDigest
    ensures Walking(rows, visited + {tip}, ordered + [(tip, byDigest[tip])], path + [row])
  {
    PathPush(rows, path, row);
  }

  lemma FirstRow(rows: seq<Row>, genesis: Digest) returns (row: Row)
    requires Named(rows, None) == [genesis]
    ensures Ahead(rows, [], row, genesis)
  {
    NamedMember(rows, None, genesis);
    row :| row in rows && row.digest == genesis && row.previous.None?;
  }

  lemma NextRow(rows: seq<Row>, path: seq<Row>, tip: Digest, next: Digest) returns (row: Row)
    requires OnPath(rows, path) && path != [] && tip == path[|path| - 1].digest
    requires next in Named(rows, Some(tip))
    ensures Ahead(rows, path, row, next)
  {
    NamedMember(rows, Some(tip), next);
    row :| row in rows && row.digest == next && row.previous == Some(tip);
    if Distinct(rows) {
      NoRevisit(rows, path, row);
    }
  }

  /** The walk from the genesis, one successor at a time. */
  method Walk(rows: seq<Row>, byDigest: map<Digest, Entry>, genesis: Digest, successors: map<Digest, seq<Digest>>)
    returns (cyclic: bool, ordered: seq<(Digest, Entry)>, visited: set<Digest>, tip: Digest, ghost path: seq<Row>)
    requires Indexes(rows, byDigest) && LinksOf(rows, successors) && Named(rows, None) == [genesis]
    ensures Distinct(rows) ==> !cyclic
    ensures !cyclic ==> AtEnd(rows, path, tip)
    ensures Walking(rows, visited, ordered, path) && visited <= byDigest.Keys
  {
    ordered, visited, tip, path, cyclic := [], {}, genesis, [], false;
    ghost var row := FirstRow(rows, genesis);
    var more := true;
    while more
      invariant visited <= byDigest.Keys
      invariant Walking(rows, visited, ordered, path)
      invariant more ==> Ahead(rows, path, row, tip)
      invariant !more ==> cyclic || AtEnd(rows, path, tip)
      invariant cyclic ==> !more && !Distinct(rows)
      decreases byDigest.Keys - visited, more
    {
      if tip in visited {
        cyclic, more := true, false;
      } else {
        WalkStep(rows, byDigest, visited, ordered, path, row, tip);
        visited, ordered, path := visited + {tip}, ordered + [(tip, byDigest[tip])], path + [row];
        more := tip in successors;
        if more {
          row := NextRow(rows, path, tip, successors[tip][0]);
          tip := successors[tip][0];
        }
      }
    }
  }

  /** What the walk's result says about arrangements. */
  lemma WalkDecides(rows: seq<Row>, keys: set<Digest>, visited: set<Digest>, ordered: seq<(Digest, Entry)>, path: seq<Row>)
    requires Distinct(rows) && Walking(rows, visited, ordered, path)
    requires path != [] && AtEnd(rows, path, path[|path| - 1].digest)
    requires keys == DigestSet(rows)
    ensures visited == keys ==> Arrangement(rows, path) && ordered == Pairs(path)
    ensures visited != keys ==> !exists a :: Arrangement(rows, a)
  {
    if visited == keys {
      forall i | 0 <= i < |rows|
        ensures exists q :: q in path && q.digest == rows[i].digest
      {
        assert rows[i] in rows;
        assert rows[i].digest in visited;
      }
      CoveredIsArranged(rows, path);
    }
    forall a | Arrangement(rows, a)
      ensures visited == keys
    {
      WalkCovers(rows, a, path);
    }
  }

  /** `_linearize`: each linkage defect is reported exactly when it is the first that applies; on distinct
      digests a cycle never is, and success means precisely that the rows form one chain.  */
  method Linearize(rows: seq<Row>) returns (r: Linearized)
    ensures r == Broken(GenesisCount) <==> |Named(rows, None)| != 1
    ensures r == Broken(MissingPredecessor) <==> |Named(rows, None)| == 1 && Dangling(rows)
    ensures r == Broken(SiblingBranch) <==> |Named(rows, None)| == 1 && !Dangling(rows) && Branching(rows)
    ensures r.Broken? ==> r.kind in {GenesisCount, MissingPredecessor, SiblingBranch, Cycle, OrphanHistory}
    ensures Distinct(rows) ==> r != Broken(Cycle)
    ensures Distinct(rows) ==> (r.Linear? <==> exists a :: Arrangement(rows, a))
    ensures Distinct(rows) && r.Linear? ==>
      exists a: seq<Row> :: Arrangement(rows, a) && r.order == Pairs(a) && r.tip == a[|a| - 1].digest
  {
    if a :| Distinct(rows) && Arrangement(rows, a) {
      ArrangedRowsPass(rows, a);
    }
    var byDigest, geneses := IndexRows(rows);
    if |geneses| != 1 {
      return Broken(GenesisCount);
    }
    var missing := HasMissingPredecessor(rows, byDigest);
    if missing {
      return Broken(MissingPredecessor);
    }
    var successors, branching := Successors(rows);
    if branching {
      return Broken(SiblingBranch);
    }
    var cyclic, ordered, visited, tip, path := Walk(rows, byDigest, geneses[0], successors);
    if cyclic {
      return Broken(Cycle);
    }
    if Distinct(rows) {
      WalkDecides(rows, byDigest.Keys, visited, ordered, path);
    }
    if visited != byDigest.Keys {
      return Broken(OrphanHistory);
    }
    return Linear(ordered, tip);
  }
}
