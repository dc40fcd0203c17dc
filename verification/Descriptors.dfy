/** The held descriptor table: which approved directories have a descriptor, which lie at or below a stop,
    and how the walk is picked up again when a planned directory appears.  */
module Descriptors {
  import opened ChainModel

  datatype Node = ProjectRoot | WorkRoot | Inner(id: nat)

  /** The approved topology.  `directories` is the walk order: every directory node but the two roots,
      shallowest first.  `depth` counts the components of a node's path.  */
  datatype Approved = Approved(parents: map<Node, Node>, depth: map<Node, nat>, directories: seq<Node>, planned: set<Node>, hasWork: bool)

  datatype Observed = NoEntry | OtherEntry | DirectoryEntry | Unobservable

  /** What opening a child through its parent's descriptor does. */
  datatype Opening = Opened(fd: nat) | AccessDenied | Drifted

  datatype Stop = Stop(node: Node, parentFd: nat, observed: Observed)

  ghost predicate Rooted(a: Approved) {
    && ProjectRoot !in a.parents
    && forall n :: n in a.parents ==> n in a.depth && a.parents[n] in a.depth && a.depth[a.parents[n]] < a.depth[n]
  }

  /** The parent of every approved directory is the project root or an approved directory. */
  ghost predicate WellFormed(a: Approved) {
    && Rooted(a)
    && (forall i :: 0 <= i < |a.directories| ==> Placed(a, a.directories[i]))
    && (forall i, j :: 0 <= i < j < |a.directories| ==> a.directories[i] != a.directories[j])
    && forall i, j :: 0 <= i < j < |a.directories| ==> Depth(a, a.directories[i]) <= Depth(a, a.directories[j])
  }

  ghost function Depth(a: Approved, n: Node): nat {
    if n in a.depth then a.depth[n] else 0
  }

  ghost predicate Placed(a: Approved, d: Node) {
    && d != ProjectRoot && d != WorkRoot && d in a.parents
    && (a.parents[d] == ProjectRoot || a.parents[d] in a.directories)
  }

  // ---- at or below ----

  /** `n` is one of `tops` or lies beneath one: the reflexive-transitive descendants. */
  ghost predicate AtOrBelow(a: Approved, n: Node, tops: set<Node>)
    requires Rooted(a)
    decreases Depth(a, n)
  {
    n in tops || (n in a.parents && AtOrBelow(a, a.parents[n], tops))
  }

  lemma {:induction false} AtOrBelowMonotone(a: Approved, n: Node, tops: set<Node>, more: set<Node>)
    requires Rooted(a) && AtOrBelow(a, n, tops) && forall t :: t in tops ==> AtOrBelow(a, t, more)
    ensures AtOrBelow(a, n, more)
    decreases Depth(a, n)
  {
    if n !in tops {
      AtOrBelowMonotone(a, a.parents[n], tops, more);
    }
  }

  /** A set that holds the stops and is closed under children holds everything at or below them. */
  lemma {:induction false} ClosedHoldsAll(a: Approved, closed: set<Node>, tops: set<Node>, n: Node)
    requires Rooted(a) && tops <= closed && AtOrBelow(a, n, tops)
    requires forall m :: m in a.parents && a.parents[m] in closed ==> m in closed
    ensures n in closed
    decreases Depth(a, n)
  {
    if n !in tops {
      ClosedHoldsAll(a, closed, tops, a.parents[n]);
    }
  }

  /** One pass over the edges: it adds some children of members, and if it adds none there are none. */
  method Pass(a: Approved, before: set<Node>, ghost tops: set<Node>) returns (after: set<Node>)
    requires Rooted(a) && forall n :: n in before ==> AtOrBelow(a, n, tops)
    ensures before <= after <= before + a.parents.Keys && forall n :: n in after ==> AtOrBelow(a, n, tops)
    ensures after == before ==> forall m :: m in a.parents && a.parents[m] in before ==> m in before
  {
    after := before;
    var todo := a.parents.Keys;
    while todo != {}
      invariant todo <= a.parents.Keys && before <= after <= before + a.parents.Keys
      invariant forall n :: n in after ==> AtOrBelow(a, n, tops)
      invariant forall m :: m in a.parents && m !in todo && a.parents[m] in before ==> m in after
      decreases todo
    {
      var n :| n in todo;
      if a.parents[n] in after && n !in after {
        after := after + {n};
      }
      todo := todo - {n};
    }
  }

  /** `_closure` terminates with exactly the nodes at or below a stop. */
  method Closure(a: Approved, stopped: set<Node>) returns (unreachable: set<Node>)
    requires Rooted(a)
    ensures forall n :: n in unreachable <==> AtOrBelow(a, n, stopped)
  {
    unreachable := stopped;
    var changed := true;
    while changed
      invariant stopped <= unreachable && forall n :: n in unreachable ==> AtOrBelow(a, n, stopped)
      invariant !changed ==> forall m :: m in a.parents && a.parents[m] in unreachable ==> m in unreachable
      decreases a.parents.Keys - unreachable, changed
    {
      var after := Pass(a, unreachable, stopped);
      changed := after != unreachable;
      if changed {
        var n :| n in after && n !in unreachable;
        assert n in a.parents.Keys - unreachable && n !in a.parents.Keys - after;
      }
      unreachable := after;
    }
    forall n | AtOrBelow(a, n, stopped) ensures n in unreachable {
      ClosedHoldsAll(a, unreachable, stopped, n);
    }
  }

  // ---- the table's invariant, on values ----

  function Stopped(stops: seq<Stop>): set<Node> {
    set i | 0 <= i < |stops| :: stops[i].node
  }

  /** The roots and their opened descendants have descriptors; every stop is a planned directory without
      one, waits under a parent that has one, and stands once.  */
  ghost predicate Held(a: Approved, fds: map<Node, nat>, stops: seq<Stop>) {
    && ProjectRoot in fds && (WorkRoot in fds <==> a.hasWork)
    && (forall n :: n in fds ==> n == ProjectRoot || n == WorkRoot || n in a.directories)
    && (forall n :: n in fds && n in a.directories && n in a.parents ==> a.parents[n] in fds)
    && (forall i :: 0 <= i < |stops| ==> Waits(a, fds, stops[i]))
    && forall i, j :: 0 <= i < j < |stops| ==> stops[i].node != stops[j].node
  }

  ghost predicate Waits(a: Approved, fds: map<Node, nat>, s: Stop) {
    && s.node in a.directories && s.node in a.planned && s.node !in fds
    && s.node in a.parents && a.parents[s.node] in fds && s.parentFd == fds[a.parents[s.node]]
  }

  /** The unreachable set is exactly the nodes at or below a current stop. */
  ghost predicate Exact(a: Approved, stops: seq<Stop>, unreachable: set<Node>)
    requires Rooted(a)
  {
    forall n :: n in unreachable <==> AtOrBelow(a, n, Stopped(stops))
  }

  /** Each approved directory has a descriptor or is unreachable, never both. */
  ghost predicate Split(a: Approved, fds: map<Node, nat>, unreachable: set<Node>) {
    forall d :: d in a.directories ==> (d in fds <==> d !in unreachable)
  }

  ghost predicate Inv(a: Approved, fds: map<Node, nat>, stops: seq<Stop>, unreachable: set<Node>) {
    WellFormed(a) && Held(a, fds, stops) && Exact(a, stops, unreachable) && Split(a, fds, unreachable)
  }

  /** Nothing that has a descriptor lies at or below a stop. */
  lemma {:induction false} HeldIsReachable(a: Approved, fds: map<Node, nat>, stops: seq<Stop>, n: Node)
    requires WellFormed(a) && Held(a, fds, stops) && n in fds && n != WorkRoot
    ensures !AtOrBelow(a, n, Stopped(stops))
    decreases Depth(a, n)
  {
    if n != ProjectRoot {
      assert Placed(a, n);
      HeldIsReachable(a, fds, stops, a.parents[n]);
    }
  }

  /** Directly beneath a held directory, a directory without a descriptor is itself a stop. */
  lemma UnheldChildIsStop(a: Approved, fds: map<Node, nat>, stops: seq<Stop>, unreachable: set<Node>, d: Node)
    requires Inv(a, fds, stops, unreachable) && d in a.directories && d !in fds && d in a.parents && a.parents[d] in fds
    requires a.parents[d] != WorkRoot
    ensures d in Stopped(stops)
  {
    HeldIsReachable(a, fds, stops, a.parents[d]);
  }

  /** What a valid table promises: the roots are held, a held directory hangs under a held one, and every
      other approved directory is at or below a stop, which is planned and waits under its parent's
      descriptor.  */
  lemma TableMeans(a: Approved, fds: map<Node, nat>, stops: seq<Stop>, unreachable: set<Node>, d: Node)
    requires Inv(a, fds, stops, unreachable) && d in a.directories
    ensures ProjectRoot in fds && (WorkRoot in fds <==> a.hasWork) && (forall n :: n in fds ==> n in {ProjectRoot, WorkRoot} || n in a.directories)
    ensures d in fds ==> a.parents[d] in fds && d !in unreachable
    ensures d !in fds ==> d in unreachable && exists s :: s in stops && AtOrBelow(a, d, {s.node})
    ensures forall s :: s in stops ==>
      && s.node in a.directories && s.node in a.planned && s.node !in fds && a.parents[s.node] in fds && s.parentFd == fds[a.parents[s.node]]
    ensures forall s, t :: s in stops && t in stops && s.node == t.node ==> s == t
  {
    assert Placed(a, d);
    if d !in fds {
      var top := SomeTop(a, d, Stopped(stops));
      var i :| 0 <= i < |stops| && stops[i].node == top;
      assert stops[i] in stops && AtOrBelow(a, d, {stops[i].node});
    }
    forall s | s in stops ensures Waits(a, fds, s) {
      var i :| 0 <= i < |stops| && stops[i] == s;
    }
  }

  // ---- adopting a planned directory, then registering its planned children ----

  ghost predicate ChildrenPlanned(a: Approved, node: Node) {
    forall d :: d in a.directories && d in a.parents && a.parents[d] == node ==> d in a.planned
  }

  /** No approved existing directory waits below a stop. */
  ghost predicate UnheldArePlanned(a: Approved, fds: map<Node, nat>) {
    forall d :: d in a.directories && d !in fds ==> d in a.planned
  }

  lemma UnheldChildren(a: Approved, fds: map<Node, nat>, stops: seq<Stop>, node: Node)
    requires WellFormed(a) && Held(a, fds, stops) && UnheldArePlanned(a, fds) && node !in fds
    ensures ChildrenPlanned(a, node)
  {
  }

  /** `now` drops `node` and adds exactly its planned child directories. */
  ghost predicate Handed(a: Approved, was: set<Node>, now: set<Node>, node: Node) {
    forall n :: n in now <==> (n in was && n != node) || (n in a.directories && n in a.planned && n in a.parents && a.parents[n] == node)
  }

  /** What was below the adopted directory stays below one of its children, if they are all planned. */
  lemma {:induction false} StillBelow(a: Approved, was: set<Node>, now: set<Node>, node: Node, d: Node)
    requires WellFormed(a) && Handed(a, was, now, node) && ChildrenPlanned(a, node)
    requires d in a.directories && d != node && AtOrBelow(a, d, was) && ProjectRoot !in was
    ensures AtOrBelow(a, d, now)
    decreases Depth(a, d)
  {
    assert Placed(a, d);
    if d !in was && a.parents[d] != node {
      StillBelow(a, was, now, node, a.parents[d]);
    }
  }

  /** The hand-over keeps the invariant exactly when every child directory of the adopted one is planned:
      an existing child would have neither a descriptor nor a stop above it.  */
  lemma HandOver(a: Approved, fds: map<Node, nat>, stops: seq<Stop>, unreachable: set<Node>, node: Node,
                 held: map<Node, nat>, now: seq<Stop>, closed: set<Node>)
    requires Inv(a, fds, stops, unreachable) && node in Stopped(stops)
    requires held.Keys == fds.Keys + {node} && Held(a, held, now)
    requires Handed(a, Stopped(stops), Stopped(now), node) && Exact(a, now, closed)
    ensures Inv(a, held, now, closed) <==> ChildrenPlanned(a, node)
  {
    assert ProjectRoot !in Stopped(stops);
    if ChildrenPlanned(a, node) {
      forall d | d in a.directories ensures d in held <==> d !in closed {
        assert Placed(a, d);
        if d in held {
          HeldIsReachable(a, held, now, d);
        } else {
          StillBelow(a, Stopped(stops), Stopped(now), node, d);
        }
      }
    } else {
      var d :| d in a.directories && d in a.parents && a.parents[d] == node && d !in a.planned;
      assert node in a.directories && Placed(a, node) && Placed(a, d);
      HeldIsReachable(a, held, now, node);
      assert d !in fds;
      assert d !in Stopped(now);
      assert !AtOrBelow(a, d, Stopped(now));
    }
  }

  /** A planned directory with an approved existing child: once it is adopted, the child is neither held nor
      below a stop.  */
  lemma ExistingChildIsLost(rootFd: nat, fd: nat)
    ensures var outer, inner := Inner(0), Inner(1);
      var a := Approved(map[outer := ProjectRoot, inner := outer], map[ProjectRoot := 0, outer := 1, inner := 2], [outer, inner], {outer}, false);
      var stops, held: map<Node, nat> := [Stop(outer, rootFd, NoEntry)], map[ProjectRoot := rootFd, outer := fd];
      && Inv(a, map[ProjectRoot := rootFd], stops, {outer, inner}) && outer in Stopped(stops)
      && Held(a, held, []) && Handed(a, Stopped(stops), Stopped([]), outer) && Exact(a, [], {})
      && !Inv(a, held, [], {}) && inner !in held && inner !in {}
  {
    var outer, inner := Inner(0), Inner(1);
    var a := Approved(map[outer := ProjectRoot, inner := outer], map[ProjectRoot := 0, outer := 1, inner := 2], [outer, inner], {outer}, false);
    var stops := [Stop(outer, rootFd, NoEntry)];
    assert a.directories[0] == outer && a.directories[1] == inner;
    assert stops[0].node == outer;
    assert Stopped(stops) == {outer};
    assert WellFormed(a);
    forall n ensures n in {outer, inner} <==> AtOrBelow(a, n, Stopped(stops)) {
      assert !AtOrBelow(a, ProjectRoot, Stopped(stops));
    }
    forall n ensures !AtOrBelow(a, n, {}) {
      NothingBelowNothing(a, n);
    }
    assert Stopped([]) == {};
    assert inner in a.directories;
  }

  lemma {:induction false} NothingBelowNothing(a: Approved, n: Node)
    requires Rooted(a)
    ensures !AtOrBelow(a, n, {})
    decreases Depth(a, n)
  {
    if n in a.parents {
      NothingBelowNothing(a, a.parents[n]);
    }
  }

  lemma DroppedNodes(stops: seq<Stop>, node: Node, rest: seq<Stop>, at: nat)
    requires at < |stops| && stops[at].node == node && rest == stops[..at] + stops[at + 1..]
    requires forall i, j :: 0 <= i < j < |stops| ==> stops[i].node != stops[j].node
    ensures Stopped(rest) == Stopped(stops) - {node}
    ensures forall i, j :: 0 <= i < j < |rest| ==> rest[i].node != rest[j].node
    ensures forall s :: s in rest <==> s in stops && s.node != node
  {
    forall s ensures s in rest <==> s in stops && s.node != node {
      if s in stops && s.node != node {
        var i :| 0 <= i < |stops| && stops[i] == s;
        assert s == rest[if i < at then i else i - 1];
      }
    }
    forall n ensures n in Stopped(rest) <==> n in Stopped(stops) - {node} {
      if n in Stopped(stops) - {node} {
        var i :| 0 <= i < |stops| && stops[i].node == n;
        assert stops[i] in rest;
      }
    }
  }

  /** Nothing directly beneath `node` is held or stopped yet. */
  ghost predicate NoneBeneath(a: Approved, fds: map<Node, nat>, stops: seq<Stop>, node: Node) {
    && (forall d :: d in fds && d in a.directories && d in a.parents ==> a.parents[d] != node)
    && forall i :: 0 <= i < |stops| && stops[i].node in a.parents ==> a.parents[stops[i].node] != node
  }

  datatype Adoption = Adopted | Closed | AlreadyHeld | NotStopped

  class DescriptorTable {
    var fds: map<Node, nat>
    var stops: seq<Stop>
    var unreachable: set<Node>
    var closed: bool

    constructor (fds: map<Node, nat>, stops: seq<Stop>, unreachable: set<Node>)
      ensures this.fds == fds && this.stops == stops && this.unreachable == unreachable && !closed
    {
      this.fds, this.stops, this.unreachable, closed := fds, stops, unreachable, false;
    }

    ghost predicate Valid(a: Approved)
      reads this
    {
      !closed && Inv(a, fds, stops, unreachable)
    }

    /** The position of a node's stop, if it has one. */
    method StopOf(node: Node) returns (at: Option<nat>)
      ensures at.Some? <==> node in Stopped(stops)
      ensures at.Some? ==> at.value < |stops| && stops[at.value].node == node
    {
      for i := 0 to |stops|
        invariant forall j :: 0 <= j < i ==> stops[j].node != node
      {
        if stops[i].node == node {
          return Some(i);
        }
      }
      return None;
    }

    /** Accepts exactly an unheld stopped node of an open table; it then holds it and drops its stop. */
    method Adopt(node: Node, fd: nat) returns (outcome: Adoption)
      requires forall i, j :: 0 <= i < j < |stops| ==> stops[i].node != stops[j].node
      modifies this
      ensures closed == old(closed)
      ensures outcome.Adopted? <==> !closed && node !in old(fds) && node in Stopped(old(stops))
      ensures !outcome.Adopted? ==> fds == old(fds) && stops == old(stops) && unreachable == old(unreachable)
      ensures outcome.Adopted? ==>
        && fds == old(fds)[node := fd] && unreachable == old(unreachable) - {node}
        && Stopped(stops) == Stopped(old(stops)) - {node}
        && (forall s :: s in stops <==> s in old(stops) && s.node != node)
        && forall i, j :: 0 <= i < j < |stops| ==> stops[i].node != stops[j].node
    {
      if closed {
        return Closed;
      }
      if node in fds {
        return AlreadyHeld;
      }
      var at := StopOf(node);
      if at.None? {
        return NotStopped;
      }
      ghost var before := stops;
      fds := fds[node := fd];
      stops := stops[..at.value] + stops[at.value + 1..];
      DroppedNodes(before, node, stops, at.value);
      unreachable := unreachable - {node};
      return Adopted;
    }

    /** Appends one fresh stop for each planned child directory, in walk order; an observation that fails
        stops the work with the remaining children unregistered.  */
    method AppendChildren(a: Approved, node: Node, observe: Node -> Observed) returns (registered: Option<seq<Node>>)
      requires WellFormed(a) && node in fds && Held(a, fds, stops) && NoneBeneath(a, fds, stops, node)
      modifies this`stops
      ensures Held(a, fds, stops)
      ensures registered.Some? ==> Appended(a, old(stops), stops, registered.value, node, fds, observe, |a.directories|)
      ensures registered.Some? ==> forall s :: s in stops ==>
        s in old(stops) || (s.node in registered.value && s.parentFd == fds[node] && s.observed == observe(s.node))
      ensures registered.Some? ==> forall n :: n in registered.value <==>
        n in a.directories && n in a.planned && n in a.parents && a.parents[n] == node
    {
      var found: seq<Node> := [];
      for i := 0 to |a.directories|
        invariant Held(a, fds, stops) && Appended(a, old(stops), stops, found, node, fds, observe, i)
      {
        var child := a.directories[i];
        assert Placed(a, child);
        if child in a.planned && a.parents[child] == node {
          var seen := observe(child);
          if seen.Unobservable? {
            return None;
          }
          ChildJoins(a, fds, old(stops), stops, found, i, node, observe);
          AppendedOne(a, fds, old(stops), stops, found, i, node, observe);
          stops := stops + [Stop(child, fds[node], seen)];
          found := found + [child];
        } else {
          AppendedNone(a, fds, old(stops), stops, found, i, node, observe);
        }
      }
      AppendedMeans(a, old(stops), stops, found, node, fds, observe);
      return Some(found);
    }

    /** Adopting a stopped directory and registering its planned children keeps the table's invariant
        exactly when the directory has no approved existing child.  */
    method AdoptAndRegister(a: Approved, node: Node, fd: nat, observe: Node -> Observed) returns (registered: Option<seq<Node>>)
      requires Valid(a) && node in Stopped(stops)
      modifies this
      ensures !closed && fds == old(fds)[node := fd]
      ensures registered.Some? ==> Held(a, fds, stops) && Exact(a, stops, unreachable)
      ensures registered.Some? ==> (Inv(a, fds, stops, unreachable) <==> ChildrenPlanned(a, node))
      ensures registered.Some? ==> forall s :: s in stops ==>
        (s in old(stops) && s.node != node) || (s.node in registered.value && s.observed == observe(s.node))
      ensures registered.Some? ==> forall n :: n in registered.value ==> n in a.parents && a.parents[n] == node
      ensures registered.Some? ==> forall n :: n in Stopped(stops) <==>
        (n in Stopped(old(stops)) && n != node) || (n in a.directories && n in a.planned && n in a.parents && a.parents[n] == node)
    {
      ghost var before, held := stops, fds;
      AdoptionKeepsHeld(a, fds, stops, node, fd);
      var outcome := Adopt(node, fd);
      ghost var between := stops;
      HeldSurvives(a, held, before, fds, stops, node, fd);
      registered := AppendChildren(a, node, observe);
      if registered.Some? {
        unreachable := Closure(a, Stopped(stops));
        AppendedMeans(a, between, stops, registered.value, node, fds, observe);
        HandOver(a, held, before, old(unreachable), node, fds, stops, unreachable);
      }
    }

    /** One item of the resumed walk: the directories it brought within reach, or a failure. */
    method ResumeOne(a: Approved, current: Node, observe: Node -> Observed, open: Node -> Opening) returns (reached: Option<seq<Node>>)
      requires Valid(a) && UnheldArePlanned(a, fds)
      modifies this
      ensures reached.Some? ==> Valid(a) && forall n :: n in old(fds) ==> n in fds && fds[n] == old(fds)[n]
      ensures reached.Some? ==> UnheldArePlanned(a, fds)
      ensures reached.Some? ==> (reached.value == [] && fds == old(fds)) || (current in fds && current !in old(fds) && current in a.directories)
      ensures reached.Some? ==> Expanded(a, current, old(stops), stops, reached.value, open)
    {
      var at := StopOf(current);
      if at.Some? && stops[at.value].observed.DirectoryEntry? && !open(current).AccessDenied? {
        if open(current).Drifted? {
          return None;
        }
        AdoptionKeepsHeld(a, fds, stops, current, open(current).fd);
        UnheldChildren(a, fds, stops, current);
        reached := AdoptAndRegister(a, current, open(current).fd, observe);
      } else {
        StopIsOnly(a, fds, stops, current);
        reached := Some([]);
      }
    }

    /** Works through `node` and every directory that appears beneath it.  It terminates, and on success
        leaves no stop there that could still be opened: each is no directory or was denied.  */
    method ResumeDescent(a: Approved, node: Node, observe: Node -> Observed, open: Node -> Opening) returns (ok: bool)
      requires Valid(a) && UnheldArePlanned(a, fds)
      modifies this
      ensures ok ==> Valid(a) && forall n :: n in old(fds) ==> n in fds && fds[n] == old(fds)[n]
      ensures ok ==> forall s :: s in stops && !AtOrBelow(a, s.node, {node}) ==> s in old(stops)
      ensures ok && node in Stopped(old(stops)) ==>
        forall s :: s in stops && AtOrBelow(a, s.node, {node}) ==> s.observed != DirectoryEntry || open(s.node) == AccessDenied
    {
      var pending := [node];
      if node in Stopped(stops) {
        OnlyStopBelow(a, fds, stops, unreachable, node);
      }
      while pending != []
        invariant Valid(a) && UnheldArePlanned(a, fds) && forall n :: n in old(fds) ==> n in fds && fds[n] == old(fds)[n]
        invariant Resumed(a, node, old(stops), stops, pending, open)
        decreases (set d | d in a.directories) - fds.Keys, |pending|
      {
        var current, later := pending[0], pending[1..];
        ghost var before, held := stops, fds;
        var reached := ResumeOne(a, current, observe, open);
        if reached.None? {
          return false;
        }
        Spawned(a, node, old(stops), before, stops, pending, reached.value, open);
        if reached.value != [] {
          assert current in (set d | d in a.directories) - held.Keys;
        }
        pending := later + reached.value;
      }
      return true;
    }
  }

  ghost predicate Stuck(s: Stop, open: Node -> Opening) {
    !s.observed.DirectoryEntry? || open(s.node).AccessDenied?
  }

  /** Progress of the resumed walk from `top`. */
  ghost predicate Resumed(a: Approved, top: Node, was: seq<Stop>, now: seq<Stop>, pending: seq<Node>, open: Node -> Opening)
    requires Rooted(a)
  {
    && (forall n :: n in pending ==> AtOrBelow(a, n, {top}))
    && (forall s :: s in now && !AtOrBelow(a, s.node, {top}) ==> s in was)
    && (top in Stopped(was) ==> forall s :: s in now && AtOrBelow(a, s.node, {top}) ==> s.node in pending || Stuck(s, open))
  }

  /** A stop has no other stop beneath it. */
  lemma OnlyStopBelow(a: Approved, fds: map<Node, nat>, stops: seq<Stop>, unreachable: set<Node>, top: Node)
    requires Inv(a, fds, stops, unreachable) && top in Stopped(stops)
    ensures forall s :: s in stops && AtOrBelow(a, s.node, {top}) ==> s.node == top
  {
    forall s | s in stops && AtOrBelow(a, s.node, {top}) ensures s.node == top {
      assert Waits(a, fds, s);
      if s.node != top {
        assert Placed(a, s.node);
        AtOrBelowMonotone(a, a.parents[s.node], {top}, Stopped(stops));
      }
    }
  }

  /** What one item of the resumed walk does to the stops. */
  ghost predicate Expanded(a: Approved, current: Node, before: seq<Stop>, now: seq<Stop>, reached: seq<Node>, open: Node -> Opening) {
    && (forall n :: n in reached ==> n in a.parents && a.parents[n] == current)
    && forall s :: s in now ==> s.node in reached || (s in before && (s.node == current ==> Stuck(s, open)))
  }

  lemma StopIsOnly(a: Approved, fds: map<Node, nat>, stops: seq<Stop>, current: Node)
    requires Held(a, fds, stops)
    ensures forall s, t :: s in stops && t in stops && s.node == current && t.node == current ==> s == t
  {
  }

  lemma Spawned(a: Approved, top: Node, was: seq<Stop>, before: seq<Stop>, now: seq<Stop>, pending: seq<Node>, reached: seq<Node>, open: Node -> Opening)
    requires Rooted(a) && pending != [] && Resumed(a, top, was, before, pending, open)
    requires Expanded(a, pending[0], before, now, reached, open)
    ensures Resumed(a, top, was, now, pending[1..] + reached, open)
  {
    var later := pending[1..];
    assert AtOrBelow(a, pending[0], {top});
    assert pending == [pending[0]] + later;
    forall n | n in reached ensures AtOrBelow(a, n, {top}) {}
  }

  lemma OneMoreStop(a: Approved, fds: map<Node, nat>, stops: seq<Stop>, s: Stop)
    requires Held(a, fds, stops) && Waits(a, fds, s) && forall k :: 0 <= k < |stops| ==> stops[k].node != s.node
    ensures Held(a, fds, stops + [s])
  {
    var after := stops + [s];
    forall k | 0 <= k < |after| ensures Waits(a, fds, after[k]) {
      if k < |stops| {
        assert after[k] == stops[k];
      }
    }
  }

  // ---- the initial walk ----

  /** After visiting `i` directories: each has a descriptor or stopped, and whatever stopped without a
      stop of its own inherited it from its parent.  */
  ghost predicate Walked(a: Approved, i: nat, fds: map<Node, nat>, stops: seq<Stop>, stopped: set<Node>)
    requires i <= |a.directories|
  {
    && Held(a, fds, stops) && Stopped(stops) <= stopped
    && (forall n :: n in stopped ==> n in a.directories[..i])
    && (forall n :: n in fds ==> n == ProjectRoot || n == WorkRoot || n in a.directories[..i])
    && (forall d :: d in a.directories[..i] ==> (d in fds <==> d !in stopped))
    && (forall n :: n in stopped ==> n in Stopped(stops) || (n in a.parents && a.parents[n] in stopped))
  }

  lemma ParentCameFirst(a: Approved, i: nat)
    requires WellFormed(a) && i < |a.directories|
    ensures Placed(a, a.directories[i]) && a.directories[i] !in a.directories[..i]
    ensures a.parents[a.directories[i]] == ProjectRoot || a.parents[a.directories[i]] in a.directories[..i]
  {
    var d := a.directories[i];
    if a.parents[d] != ProjectRoot {
      var j :| 0 <= j < |a.directories| && a.directories[j] == a.parents[d];
      assert Depth(a, a.directories[j]) < Depth(a, d);
      assert j < i;
      assert a.directories[..i][j] == a.parents[d];
    }
  }

  lemma {:induction false} StoppedIsBelowStop(a: Approved, fds: map<Node, nat>, stops: seq<Stop>, stopped: set<Node>, n: Node)
    requires WellFormed(a) && Walked(a, |a.directories|, fds, stops, stopped) && n in stopped
    ensures AtOrBelow(a, n, Stopped(stops))
    decreases Depth(a, n)
  {
    if n !in Stopped(stops) {
      StoppedIsBelowStop(a, fds, stops, stopped, a.parents[n]);
    }
  }

  /** Closing over every stopped directory is closing over the recorded stops. */
  lemma WalkEstablishes(a: Approved, fds: map<Node, nat>, stops: seq<Stop>, stopped: set<Node>, unreachable: set<Node>)
    requires WellFormed(a) && Walked(a, |a.directories|, fds, stops, stopped)
    requires forall n :: n in unreachable <==> AtOrBelow(a, n, stopped)
    ensures Inv(a, fds, stops, unreachable)
  {
    assert a.directories[..|a.directories|] == a.directories;
    forall t | t in stopped ensures AtOrBelow(a, t, Stopped(stops)) {
      StoppedIsBelowStop(a, fds, stops, stopped, t);
    }
    forall n ensures AtOrBelow(a, n, stopped) <==> AtOrBelow(a, n, Stopped(stops)) {
      if AtOrBelow(a, n, stopped) {
        AtOrBelowMonotone(a, n, stopped, Stopped(stops));
      } else if AtOrBelow(a, n, Stopped(stops)) {
        AtOrBelowMonotone(a, n, Stopped(stops), stopped);
      }
    }
    forall d | d in a.directories ensures d in fds <==> d !in unreachable {
      if d in fds {
        HeldIsReachable(a, fds, stops, d);
      }
    }
  }

  /** The bookkeeping of one more stopped directory. */
  lemma WalkCounts(a: Approved, i: nat, fds: map<Node, nat>, stops: seq<Stop>, stopped: set<Node>, after: seq<Stop>)
    requires i < |a.directories| && Walked(a, i, fds, stops, stopped) && a.directories[i] !in fds
    requires Held(a, fds, after) && forall n :: n in Stopped(after) <==> n in Stopped(stops) || n == a.directories[i]
    ensures Walked(a, i + 1, fds, after, stopped + {a.directories[i]})
  {
    assert a.directories[..i + 1] == a.directories[..i] + [a.directories[i]];
  }

  lemma WalkStops(a: Approved, i: nat, fds: map<Node, nat>, stops: seq<Stop>, stopped: set<Node>, seen: Observed)
    requires WellFormed(a) && i < |a.directories| && Walked(a, i, fds, stops, stopped)
    requires a.directories[i] in a.planned && a.directories[i] in a.parents && a.parents[a.directories[i]] in fds
    ensures Walked(a, i + 1, fds, stops + [Stop(a.directories[i], fds[a.parents[a.directories[i]]], seen)], stopped + {a.directories[i]})
  {
    ParentCameFirst(a, i);
    var d := a.directories[i];
    var s := Stop(d, fds[a.parents[d]], seen);
    forall k | 0 <= k < |stops| ensures stops[k].node != d {
      assert stops[k].node in Stopped(stops);
    }
    OneMoreStop(a, fds, stops, s);
    NodesOf(stops, stops + [s], [d]);
    WalkCounts(a, i, fds, stops, stopped, stops + [s]);
  }

  lemma WalkInherits(a: Approved, i: nat, fds: map<Node, nat>, stops: seq<Stop>, stopped: set<Node>)
    requires WellFormed(a) && i < |a.directories| && Walked(a, i, fds, stops, stopped)
    requires a.directories[i] in a.parents && a.parents[a.directories[i]] !in fds
    ensures a.parents[a.directories[i]] in stopped && Walked(a, i + 1, fds, stops, stopped + {a.directories[i]})
  {
    ParentCameFirst(a, i);
    assert a.directories[..i + 1] == a.directories[..i] + [a.directories[i]];
  }

  lemma WalkOpens(a: Approved, i: nat, fds: map<Node, nat>, stops: seq<Stop>, stopped: set<Node>, fd: nat)
    requires WellFormed(a) && i < |a.directories| && Walked(a, i, fds, stops, stopped)
    requires a.directories[i] in a.parents && a.parents[a.directories[i]] in fds
    ensures Walked(a, i + 1, fds[a.directories[i] := fd], stops, stopped)
  {
    ParentCameFirst(a, i);
    var d := a.directories[i];
    assert a.directories[..i + 1] == a.directories[..i] + [d];
    forall k | 0 <= k < |stops| ensures Waits(a, fds[d := fd], stops[k]) {
      assert Waits(a, fds, stops[k]);
      assert stops[k].node in Stopped(stops);
    }
  }

  /** No planned directory lies strictly above `d`, so the walk looks at `d` itself. */
  ghost predicate LookedAt(a: Approved, d: Node)
    requires Rooted(a)
    decreases Depth(a, d)
  {
    d in a.parents && (a.parents[d] == ProjectRoot || (a.parents[d] !in a.planned && LookedAt(a, a.parents[d])))
  }

  /** That is: nothing planned is at or above its parent. */
  lemma {:induction false} LookedAtMeans(a: Approved, d: Node)
    requires WellFormed(a) && d in a.directories && ProjectRoot !in a.planned
    ensures LookedAt(a, d) <==> !AtOrBelow(a, a.parents[d], a.planned)
    decreases Depth(a, d)
  {
    assert Placed(a, d);
    if a.parents[d] != ProjectRoot {
      LookedAtMeans(a, a.parents[d]);
    }
  }

  /** Looking at `d` fails: a planned name that cannot be observed, or an existing directory that does not open
      as approved.  */
  predicate Fails(a: Approved, d: Node, observe: Node -> Observed, open: Node -> Opening) {
    if d in a.planned then observe(d).Unobservable? else !open(d).Opened?
  }

  /** The walk so far has looked at exactly the directories it should, and none failed. */
  ghost predicate Looked(a: Approved, i: nat, fds: map<Node, nat>, observe: Node -> Observed, open: Node -> Opening)
    requires Rooted(a) && i <= |a.directories|
  {
    forall d :: d in a.directories[..i] ==> (d in fds <==> LookedAt(a, d) && d !in a.planned) && (LookedAt(a, d) ==> !Fails(a, d, observe, open))
  }

  /** The next directory's parent has a descriptor exactly when the walk should look at it. */
  lemma LooksNext(a: Approved, i: nat, fds: map<Node, nat>, stops: seq<Stop>, stopped: set<Node>, observe: Node -> Observed, open: Node -> Opening)
    requires WellFormed(a) && i < |a.directories| && Walked(a, i, fds, stops, stopped) && Looked(a, i, fds, observe, open)
    ensures a.directories[i] in a.parents && (a.parents[a.directories[i]] in fds <==> LookedAt(a, a.directories[i]))
  {
    ParentCameFirst(a, i);
  }

  lemma LookedMore(a: Approved, i: nat, fds: map<Node, nat>, fds': map<Node, nat>, observe: Node -> Observed, open: Node -> Opening)
    requires WellFormed(a) && i < |a.directories| && Looked(a, i, fds, observe, open)
    requires forall d :: d in a.directories[..i] ==> (d in fds' <==> d in fds)
    requires var d := a.directories[i]; (d in fds' <==> LookedAt(a, d) && d !in a.planned) && (LookedAt(a, d) ==> !Fails(a, d, observe, open))
    ensures Looked(a, i + 1, fds', observe, open)
  {
    assert a.directories[..i + 1] == a.directories[..i] + [a.directories[i]];
  }

  /** A finished walk holds what it looked at and could open, and stopped at what it looked at and is planned. */
  lemma WalkMeans(a: Approved, fds: map<Node, nat>, stops: seq<Stop>, stopped: set<Node>, observe: Node -> Observed, open: Node -> Opening)
    requires WellFormed(a) && Walked(a, |a.directories|, fds, stops, stopped) && Looked(a, |a.directories|, fds, observe, open)
    ensures forall d :: d in a.directories ==>
      && (d in fds <==> LookedAt(a, d) && d !in a.planned)
      && (d in Stopped(stops) <==> LookedAt(a, d) && d in a.planned)
  {
    assert a.directories[..|a.directories|] == a.directories;
    forall d | d in a.directories ensures d in Stopped(stops) <==> LookedAt(a, d) && d in a.planned {
      assert Placed(a, d);
      if d in Stopped(stops) {
        var i :| 0 <= i < |stops| && stops[i].node == d;
        assert Waits(a, fds, stops[i]);
      }
    }
  }

  /** The roots are held by the descriptors given, a visited directory by the one its opening gave. */
  ghost predicate HeldAsOpened(a: Approved, i: nat, fds: map<Node, nat>, rootFd: nat, workFd: nat, open: Node -> Opening)
    requires i <= |a.directories|
  {
    && ProjectRoot in fds && fds[ProjectRoot] == rootFd && (a.hasWork ==> WorkRoot in fds && fds[WorkRoot] == workFd)
    && forall d :: d in a.directories[..i] && d in fds ==> open(d) == Opened(fds[d])
  }

  lemma StillAsOpened(a: Approved, i: nat, fds: map<Node, nat>, fds': map<Node, nat>, rootFd: nat, workFd: nat, open: Node -> Opening)
    requires i < |a.directories| && HeldAsOpened(a, i, fds, rootFd, workFd, open) && a.directories[i] !in fds
    requires forall n :: n in fds ==> n in fds' && fds'[n] == fds[n]
    requires forall n :: n in fds' && n !in fds ==> n == a.directories[i] && open(n) == Opened(fds'[n])
    ensures HeldAsOpened(a, i + 1, fds', rootFd, workFd, open)
  {
    assert a.directories[..i + 1] == a.directories[..i] + [a.directories[i]];
  }

  /** The initial descent.  It refuses exactly when a directory it looks at is an existing one that does not open
      as approved or a planned name that cannot be observed; otherwise every approved directory is accounted for. */
  method BuildDescriptorTable(a: Approved, rootFd: nat, workFd: nat, observe: Node -> Observed, open: Node -> Opening)
    returns (table: DescriptorTable?)
    requires WellFormed(a)
    ensures table != null ==> fresh(table) && table.Valid(a)
    ensures table != null ==> forall s :: s in table.stops ==> s.observed == observe(s.node)
    ensures table == null <==>
      exists d :: d in a.directories && LookedAt(a, d) && if d in a.planned then observe(d) == Unobservable else !open(d).Opened?
    ensures table != null ==> forall d :: d in a.directories ==>
      && (d in table.fds <==> LookedAt(a, d) && d !in a.planned)
      && (d in table.fds ==> open(d) == Opened(table.fds[d]))
      && (d in Stopped(table.stops) <==> LookedAt(a, d) && d in a.planned)
    ensures table != null ==> ProjectRoot in table.fds && table.fds[ProjectRoot] == rootFd && (a.hasWork ==> WorkRoot in table.fds && table.fds[WorkRoot] == workFd)
  {
    var fds: map<Node, nat> := map[ProjectRoot := rootFd];
    if a.hasWork {
      fds := fds[WorkRoot := workFd];
    }
    var stops: seq<Stop>, stopped := [], {};
    for i := 0 to |a.directories|
      invariant Walked(a, i, fds, stops, stopped) && Looked(a, i, fds, observe, open)
      invariant forall s :: s in stops ==> s.observed == observe(s.node)
      invariant HeldAsOpened(a, i, fds, rootFd, workFd, open)
    {
      var ok;
      ghost var before := fds;
      ok, fds, stops, stopped := VisitDirectory(a, i, fds, stops, stopped, observe, open);
      if !ok {
        return null;
      }
      StillAsOpened(a, i, before, fds, rootFd, workFd, open);
    }
    assert a.directories[..|a.directories|] == a.directories;
    var unreachable := Closure(a, stopped);
    WalkEstablishes(a, fds, stops, stopped, unreachable);
    WalkMeans(a, fds, stops, stopped, observe, open);
    return new DescriptorTable(fds, stops, unreachable);
  }

  /** One directory of the descent: it inherits a stop, becomes one, or is opened. */
  method VisitDirectory(a: Approved, i: nat, fds: map<Node, nat>, stops: seq<Stop>, stopped: set<Node>, observe: Node -> Observed, open: Node -> Opening)
    returns (ok: bool, fds': map<Node, nat>, stops': seq<Stop>, stopped': set<Node>)
    requires WellFormed(a) && i < |a.directories| && Walked(a, i, fds, stops, stopped) && Looked(a, i, fds, observe, open)
    requires forall s :: s in stops ==> s.observed == observe(s.node)
    ensures !ok <==> LookedAt(a, a.directories[i]) && Fails(a, a.directories[i], observe, open)
    ensures ok ==> Walked(a, i + 1, fds', stops', stopped') && Looked(a, i + 1, fds', observe, open)
    ensures ok ==> forall s :: s in stops' ==> s.observed == observe(s.node)
    ensures a.directories[i] !in fds
    ensures ok ==> forall n :: n in fds ==> n in fds' && fds'[n] == fds[n]
    ensures ok ==> forall n :: n in fds' && n !in fds ==> n == a.directories[i] && open(n) == Opened(fds'[n])
  {
    var node := a.directories[i];
    ok, fds', stops', stopped' := true, fds, stops, stopped;
    ParentCameFirst(a, i);
    LooksNext(a, i, fds, stops, stopped, observe, open);
    var parent := a.parents[node];
    if parent !in fds {
      WalkInherits(a, i, fds, stops, stopped);
      stopped' := stopped + {node};
    } else if node in a.planned {
      var seen := observe(node);
      if seen.Unobservable? {
        ok := false;
        return;
      }
      WalkStops(a, i, fds, stops, stopped, seen);
      stops' := stops + [Stop(node, fds[parent], seen)];
      stopped' := stopped + {node};
    } else {
      if !open(node).Opened? {
        ok := false;
        return;
      }
      WalkOpens(a, i, fds, stops, stopped, open(node).fd);
      fds' := fds[node := open(node).fd];
    }
    LookedMore(a, i, fds, fds', observe, open);
  }

  // ---- what capture lets through ----

  /** `_verify_stops`: a stop is a free name, or the file or symlink its path declares.  A directory never is. */
  method VerifyStops(stops: seq<Stop>, declared: Node -> bool) returns (ok: bool)
    ensures ok <==> forall s :: s in stops ==> s.observed.NoEntry? || (s.observed.OtherEntry? && declared(s.node))
  {
    for i := 0 to |stops|
      invariant forall k :: 0 <= k < i ==> stops[k].observed.NoEntry? || (stops[k].observed.OtherEntry? && declared(stops[k].node))
    {
      if !(stops[i].observed.NoEntry? || (stops[i].observed.OtherEntry? && declared(stops[i].node))) {
        return false;
      }
    }
    return true;
  }

  lemma {:induction false} SomeTop(a: Approved, n: Node, tops: set<Node>) returns (top: Node)
    requires Rooted(a) && AtOrBelow(a, n, tops)
    ensures top in tops && AtOrBelow(a, n, {top})
    decreases Depth(a, n)
  {
    if n in tops {
      top := n;
    } else {
      top := SomeTop(a, a.parents[n], tops);
    }
  }

  /** If the disk is as it was at approval, every planned directory with an approved existing one beneath it is
      still found to be a directory; then a table capture accepts has no existing directory below a stop, and
      no adoption loses one.  */
  lemma CaptureRulesOutLostChildren(a: Approved, fds: map<Node, nat>, stops: seq<Stop>, unreachable: set<Node>)
    requires Inv(a, fds, stops, unreachable)
    requires forall s :: s in stops ==> !s.observed.DirectoryEntry?
    requires forall s, d :: s in stops && d in a.directories && d !in a.planned && AtOrBelow(a, d, {s.node}) ==> s.observed.DirectoryEntry?
    ensures UnheldArePlanned(a, fds)
  {
    forall d | d in a.directories && d !in fds ensures d in a.planned {
      var top := SomeTop(a, d, Stopped(stops));
      var i :| 0 <= i < |stops| && stops[i].node == top;
      assert stops[i] in stops;
    }
  }

  lemma AdoptionKeepsHeld(a: Approved, fds: map<Node, nat>, stops: seq<Stop>, node: Node, fd: nat)
    requires WellFormed(a) && Held(a, fds, stops) && node in Stopped(stops)
    ensures node !in fds && node in a.directories && node in a.planned && node in a.parents && a.parents[node] in fds
  {
    var i :| 0 <= i < |stops| && stops[i].node == node;
    assert Waits(a, fds, stops[i]);
  }

  /** Once adopted, the directory is held, its stop is gone, and nothing beneath it is held or stopped. */
  lemma HeldSurvives(a: Approved, fds: map<Node, nat>, stops: seq<Stop>, held: map<Node, nat>, rest: seq<Stop>, node: Node, fd: nat)
    requires WellFormed(a) && Held(a, fds, stops) && node in Stopped(stops) && held == fds[node := fd]
    requires forall s :: s in rest <==> s in stops && s.node != node
    requires forall i, j :: 0 <= i < j < |rest| ==> rest[i].node != rest[j].node
    ensures Held(a, held, rest) && NoneBeneath(a, held, rest, node)
  {
    AdoptionKeepsHeld(a, fds, stops, node, fd);
    assert a.parents[node] != node;
    forall i | 0 <= i < |rest| ensures Waits(a, held, rest[i]) && a.parents[rest[i].node] != node {
      assert rest[i] in stops;
      var k :| 0 <= k < |stops| && stops[k] == rest[i];
      assert Waits(a, fds, stops[k]);
    }
  }

  /** After `i` directories: the old stops, then one stop for each child registered so far. */
  ghost predicate Appended(a: Approved, base: seq<Stop>, stops: seq<Stop>, found: seq<Node>, node: Node,
                           fds: map<Node, nat>, observe: Node -> Observed, i: nat)
    requires i <= |a.directories|
  {
    && base <= stops && |stops| == |base| + |found| && node in fds
    && (forall k :: 0 <= k < |found| ==> stops[|base| + k] == Stop(found[k], fds[node], observe(found[k])))
    && (forall n :: n in found <==> n in a.directories[..i] && n in a.planned && n in a.parents && a.parents[n] == node)
  }

  lemma ChildIsFresh(a: Approved, base: seq<Stop>, stops: seq<Stop>, found: seq<Node>, fds: map<Node, nat>, i: nat, node: Node, observe: Node -> Observed, k: nat)
    requires WellFormed(a) && i < |a.directories| && Appended(a, base, stops, found, node, fds, observe, i)
    requires forall m :: 0 <= m < |base| && base[m].node in a.parents ==> a.parents[base[m].node] != node
    requires a.directories[i] in a.parents && a.parents[a.directories[i]] == node && k < |stops|
    ensures stops[k].node != a.directories[i]
  {
    if k < |base| {
      assert base[k] == stops[k];
    } else {
      assert stops[|base| + (k - |base|)].node == found[k - |base|];
      assert found[k - |base|] in a.directories[..i];
    }
  }

  lemma ChildJoins(a: Approved, fds: map<Node, nat>, base: seq<Stop>, stops: seq<Stop>, found: seq<Node>, i: nat, node: Node, observe: Node -> Observed)
    requires WellFormed(a) && Held(a, fds, stops) && NoneBeneath(a, fds, base, node)
    requires i < |a.directories| && Appended(a, base, stops, found, node, fds, observe, i)
    requires a.directories[i] in a.planned && a.directories[i] in a.parents && a.parents[a.directories[i]] == node
    ensures Held(a, fds, stops + [Stop(a.directories[i], fds[node], observe(a.directories[i]))])
  {
    forall k | 0 <= k < |stops| ensures stops[k].node != a.directories[i] {
      ChildIsFresh(a, base, stops, found, fds, i, node, observe, k);
    }
    OneMoreStop(a, fds, stops, Stop(a.directories[i], fds[node], observe(a.directories[i])));
  }

  lemma AppendedNone(a: Approved, fds: map<Node, nat>, base: seq<Stop>, stops: seq<Stop>, found: seq<Node>, i: nat, node: Node, observe: Node -> Observed)
    requires i < |a.directories| && Appended(a, base, stops, found, node, fds, observe, i)
    requires !(a.directories[i] in a.planned && a.directories[i] in a.parents && a.parents[a.directories[i]] == node)
    ensures Appended(a, base, stops, found, node, fds, observe, i + 1)
  {
    assert a.directories[..i + 1] == a.directories[..i] + [a.directories[i]];
  }

  lemma AppendedOne(a: Approved, fds: map<Node, nat>, base: seq<Stop>, stops: seq<Stop>, found: seq<Node>, i: nat, node: Node, observe: Node -> Observed)
    requires i < |a.directories| && Appended(a, base, stops, found, node, fds, observe, i)
    requires a.directories[i] in a.planned && a.directories[i] in a.parents && a.parents[a.directories[i]] == node
    ensures Appended(a, base, stops + [Stop(a.directories[i], fds[node], observe(a.directories[i]))], found + [a.directories[i]], node, fds, observe, i + 1)
  {
    assert a.directories[..i + 1] == a.directories[..i] + [a.directories[i]];
  }

  /** Each stop is an old one or a fresh one of a planned child, and every planned child has one. */
  lemma AppendedMeans(a: Approved, base: seq<Stop>, stops: seq<Stop>, found: seq<Node>, node: Node, fds: map<Node, nat>, observe: Node -> Observed)
    requires Appended(a, base, stops, found, node, fds, observe, |a.directories|)
    ensures forall n :: n in Stopped(stops) <==>
      n in Stopped(base) || (n in a.directories && n in a.planned && n in a.parents && a.parents[n] == node)
    ensures forall s :: s in stops ==> s in base || (s.node in found && s.parentFd == fds[node] && s.observed == observe(s.node))
    ensures forall n :: n in found <==> n in a.directories && n in a.planned && n in a.parents && a.parents[n] == node
  {
    assert a.directories[..|a.directories|] == a.directories;
    NodesOf(base, stops, found);
    forall s | s in stops ensures s in base || (s.node in found && s.parentFd == fds[node] && s.observed == observe(s.node)) {
      var i :| 0 <= i < |stops| && stops[i] == s;
      if i < |base| {
        assert base[i] == stops[i];
      } else {
        assert stops[|base| + (i - |base|)].node == found[i - |base|];
      }
    }
  }

  lemma NodesOf(before: seq<Stop>, after: seq<Stop>, found: seq<Node>)
    requires before <= after && |after| == |before| + |found|
    requires forall k :: 0 <= k < |found| ==> after[|before| + k].node == found[k]
    ensures forall n :: n in Stopped(after) <==> n in Stopped(before) || n in found
  {
    forall n ensures n in Stopped(after) <==> n in Stopped(before) || n in found {
      if n in Stopped(after) {
        var i :| 0 <= i < |after| && after[i].node == n;
        if i >= |before| {
          assert after[|before| + (i - |before|)].node == found[i - |before|];
        } else {
          assert before[i] == after[i];
        }
      }
      if n in found {
        var k :| 0 <= k < |found| && found[k] == n;
        assert after[|before| + k].node == n;
      }
      if n in Stopped(before) {
        var i :| 0 <= i < |before| && before[i].node == n;
        assert after[i] == before[i];
      }
    }
  }
}
