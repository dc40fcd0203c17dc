/** The resolved directory topology, and the surface and ordering rules re-derived from its parent edges.

    Lookup is by exact bytes.  When distinct directories also have distinct identities, the resolved
    verdicts are the lexical ones.  */
module Topology {
  import opened ChainModel
  import opened Effects
  import opened SurfaceTree

  /** A directory reached through the disk is known by its identity, any other by its place. */
  datatype Key = Known(identity: nat) | Under(parent: Key, leaf: string)

  datatype TopologyNode = ProjectRoot | Persistent(path: Path) | Numbered(id: nat)

  function Parent(p: Path): Path
    requires p != []
  {
    p[..|p| - 1]
  }

  function KeyOf(existing: map<Path, nat>, p: Path): Key
    requires [] in existing
  {
    if p in existing then Known(existing[p]) else Under(KeyOf(existing, Parent(p)), p[|p| - 1])
  }

  ghost predicate DistinctIdentities(existing: map<Path, nat>) {
    [] in existing && forall p, q :: p in existing && q in existing && existing[p] == existing[q] ==> p == q
  }

  /** Distinct identities give distinct keys, whichever directories are still only planned. */
  lemma {:induction false} KeysDiffer(existing: map<Path, nat>, p: Path, q: Path)
    requires DistinctIdentities(existing) && KeyOf(existing, p) == KeyOf(existing, q)
    ensures p == q
    decreases |p|
  {
    if p !in existing {
      KeysDiffer(existing, Parent(p), Parent(q));
      assert p == Parent(p) + [p[|p| - 1]] && q == Parent(q) + [q[|q| - 1]];
    }
  }

  /** And only distinct identities do: two paths with one identity have one key. */
  lemma OneIdentityOneKey(existing: map<Path, nat>, p: Path, q: Path)
    requires [] in existing && p in existing && q in existing
    ensures KeyOf(existing, p) == KeyOf(existing, q) <==> existing[p] == existing[q]
  {
  }

  // ---- one node per key ----

  /** `nodes` names the directories of `seen`: a declared one by its path, the root as the project root
      unless a declared path is the same directory, and every other key by a number of its own.  */
  ghost predicate Assigned(seen: set<Path>, keys: map<Path, Key>, declared: set<Path>, nodes: map<Key, TopologyNode>, next: nat)
    requires [] in seen && seen <= keys.Keys
  {
    && (forall p :: p in seen ==> keys[p] in nodes)
    && (forall p :: p in seen && p in declared && p != [] ==> nodes[keys[p]] == Persistent(p))
    && (forall key :: key in nodes ==> NodeFits(seen, keys, declared, key, nodes[key], next))
    && (forall key, other :: key in nodes && other in nodes && nodes[key].Numbered? && nodes[key] == nodes[other] ==> key == other)
  }

  ghost predicate NodeFits(seen: set<Path>, keys: map<Path, Key>, declared: set<Path>, key: Key, node: TopologyNode, next: nat)
    requires [] in seen && seen <= keys.Keys
  {
    match node
    case ProjectRoot => key == keys[[]]
    case Persistent(p) => p in seen && p in declared && p != [] && keys[p] == key
    case Numbered(id) => id < next && key != keys[[]] && exists p :: p in seen && keys[p] == key
  }

  ghost predicate OneDeclaredPerKey(seen: set<Path>, keys: map<Path, Key>, declared: set<Path>)
    requires seen <= keys.Keys
  {
    forall p, q :: p in seen * declared - {[]} && q in seen * declared - {[]} && keys[p] == keys[q] ==> p == q
  }

  /** Refuses exactly when two declared directories are one; otherwise one node per key, in any order. */
  method NodesByKey(keys: map<Path, Key>, declared: set<Path>) returns (nodes: Option<map<Key, TopologyNode>>, ghost next: nat)
    requires [] in keys
    ensures nodes.None? <==> exists p, q ::
      p in keys && q in keys && p in declared && q in declared && p != [] && q != [] && p != q && keys[p] == keys[q]
    ensures nodes.Some? ==> Assigned(keys.Keys, keys, declared, nodes.value, next)
  {
    var found: map<Key, TopologyNode>, nextId := map[keys[[]] := ProjectRoot], 0;
    next := 0;
    var todo := keys.Keys - {[]};
    while todo != {}
      invariant todo <= keys.Keys - {[]} && next == nextId
      invariant Assigned(keys.Keys - todo, keys, declared, found, nextId)
      decreases todo
    {
      var p :| p in todo;
      var key := keys[p];
      ghost var seen := keys.Keys - todo;
      assert keys.Keys - (todo - {p}) == seen + {p};
      if p in declared {
        if key in found && found[key].Persistent? && found[key].path != p {
          assert NodeFits(seen, keys, declared, key, found[key], nextId);
          return None, next;
        }
        DeclaredJoins(seen, keys, declared, found, nextId, p);
        found := found[key := Persistent(p)];
      } else if key !in found {
        found := found[key := Numbered(nextId)];
        nextId := nextId + 1;
        next := nextId;
      }
      todo := todo - {p};
    }
    assert keys.Keys - todo == keys.Keys;
    return Some(found), nextId;
  }

  /** One node for each key, no two alike; a declared directory has its own, and the root the project root
      unless it has a declared one's key.  */
  lemma NodesMean(keys: map<Path, Key>, declared: set<Path>, nodes: map<Key, TopologyNode>, next: nat)
    requires [] in keys && Assigned(keys.Keys, keys, declared, nodes, next)
    ensures forall key :: key in nodes <==> exists p :: p in keys && keys[p] == key
    ensures forall a, b :: a in nodes && b in nodes && nodes[a] == nodes[b] ==> a == b
    ensures forall p :: p in keys && p in declared && p != [] ==> nodes[keys[p]] == Persistent(p)
    ensures (forall p :: p in keys && p in declared && p != [] ==> keys[p] != keys[[]]) ==> nodes[keys[[]]] == ProjectRoot
  {
    forall key | key in nodes ensures NodeFits(keys.Keys, keys, declared, key, nodes[key], next) {}
  }

  lemma DeclaredJoins(seen: set<Path>, keys: map<Path, Key>, declared: set<Path>, nodes: map<Key, TopologyNode>, next: nat, p: Path)
    requires [] in seen && seen <= keys.Keys && Assigned(seen, keys, declared, nodes, next)
    requires p in keys && p in declared && p != []
    requires keys[p] in nodes && nodes[keys[p]].Persistent? ==> nodes[keys[p]].path == p
    ensures Assigned(seen + {p}, keys, declared, nodes[keys[p] := Persistent(p)], next)
  {
    var after := nodes[keys[p] := Persistent(p)];
    forall q | q in seen + {p} && q in declared && q != [] ensures after[keys[q]] == Persistent(q) {
      if q in seen && keys[q] == keys[p] {
        assert nodes[keys[q]] == Persistent(q);
      }
    }
    forall key | key in after ensures NodeFits(seen + {p}, keys, declared, key, after[key], next) {
      if key != keys[p] {
        assert NodeFits(seen, keys, declared, key, nodes[key], next);
      }
    }
  }

  // ---- the tree ----

  /** Every proper prefix of a declared path, and every created directory with the prefixes it has. */
  function Candidates(declared: set<Path>, created: set<Path>): set<Path>
    requires created <= declared
  {
    {[]} + (set p, k | p in declared && 0 <= k < |p| :: p[..k]) + created
  }

  lemma ParentIsCandidate(declared: set<Path>, created: set<Path>, p: Path)
    requires created <= declared && p != [] && p in Candidates(declared, created) + declared
    ensures Parent(p) in Candidates(declared, created)
  {
    if p in declared {
      assert Parent(p) == p[..|p| - 1];
    } else {
      var q, k :| q in declared && 0 <= k < |q| && p == q[..k];
      assert Parent(p) == q[..k - 1];
    }
  }

  /** A single-parent tree: the root has no parent, every other path leads to the path above it, and no
      two paths share a node.  */
  ghost predicate LexicalTree(declared: set<Path>, node: map<Path, TopologyNode>, edges: map<TopologyNode, TopologyNode>) {
    && [] in node && node[[]] == ProjectRoot && ProjectRoot !in edges && [] !in declared
    && (forall p :: p in declared ==> p in node && node[p] == Persistent(p))
    && Closed(node)
    && EdgesFor(node.Keys - {[]}, node, edges)
    && OneToOne(node)
  }

  ghost predicate OneToOne(node: map<Path, TopologyNode>) {
    forall p, q :: p in node && q in node && node[p] == node[q] ==> p == q
  }

  ghost predicate Closed(node: map<Path, TopologyNode>) {
    forall p {:trigger Parent(p)} :: p in node && p != [] ==> Parent(p) in node
  }

  ghost predicate LeadsUp(node: map<Path, TopologyNode>, edges: map<TopologyNode, TopologyNode>, p: Path)
    requires p != []
  {
    p in node && Parent(p) in node && node[p] in edges && edges[node[p]] == node[Parent(p)]
  }

  /** Exactly the nodes of `paths` have edges, each to the node of the path above. */
  ghost predicate EdgesFor(paths: set<Path>, node: map<Path, TopologyNode>, edges: map<TopologyNode, TopologyNode>)
    requires paths <= node.Keys
  {
    && (forall p {:trigger LeadsUp(node, edges, p)} :: p in paths && p != [] ==> LeadsUp(node, edges, p))
    && (forall n :: n in edges ==> exists p :: p in paths && p != [] && n == node[p])
  }

  lemma NodesAreOneToOne(existing: map<Path, nat>, keys: map<Path, Key>, declared: set<Path>, nodes: map<Key, TopologyNode>, next: nat, node: map<Path, TopologyNode>)
    requires DistinctIdentities(existing) && [] in keys && [] !in declared
    requires forall p :: p in keys ==> keys[p] == KeyOf(existing, p)
    requires Assigned(keys.Keys, keys, declared, nodes, next)
    requires node.Keys == keys.Keys + declared
    requires forall p :: p in node ==> node[p] == if p in declared then Persistent(p) else nodes[keys[p]]
    ensures OneToOne(node) && node[[]] == ProjectRoot
  {
    forall p | p in keys ensures NodeFits(keys.Keys, keys, declared, keys[p], nodes[keys[p]], next) {}
    forall p, q | p in node && q in node && node[p] == node[q] ensures p == q {
      if p in keys && q in keys && (p !in declared || q !in declared) {
        assert node[p] == nodes[keys[p]] && node[q] == nodes[keys[q]];
        assert keys[p] == keys[q];
        KeysDiffer(existing, p, q);
      } else if p in declared && q !in declared {
        PersistentIsItself(existing, keys, declared, nodes, next, q, p);
      } else if q in declared && p !in declared {
        PersistentIsItself(existing, keys, declared, nodes, next, p, q);
      }
    }
    RootIsRoot(existing, keys, declared, nodes, next);
  }

  lemma RootIsRoot(existing: map<Path, nat>, keys: map<Path, Key>, declared: set<Path>, nodes: map<Key, TopologyNode>, next: nat)
    requires DistinctIdentities(existing) && [] in keys && [] !in declared
    requires forall r :: r in keys ==> keys[r] == KeyOf(existing, r)
    requires Assigned(keys.Keys, keys, declared, nodes, next)
    ensures nodes[keys[[]]] == ProjectRoot
  {
    var node := nodes[keys[[]]];
    assert NodeFits(keys.Keys, keys, declared, keys[[]], node, next);
    forall p | p in declared && p in keys && p != [] ensures keys[p] != keys[[]] {
      if keys[p] == keys[[]] {
        KeysDiffer(existing, p, []);
      }
    }
  }

  lemma PersistentIsItself(existing: map<Path, nat>, keys: map<Path, Key>, declared: set<Path>, nodes: map<Key, TopologyNode>, next: nat, p: Path, q: Path)
    requires DistinctIdentities(existing) && [] in keys && p in keys
    requires forall r :: r in keys ==> keys[r] == KeyOf(existing, r)
    requires Assigned(keys.Keys, keys, declared, nodes, next) && nodes[keys[p]] == Persistent(q)
    ensures p == q && p in declared && p != []
  {
    assert NodeFits(keys.Keys, keys, declared, keys[p], nodes[keys[p]], next);
    KeysDiffer(existing, p, q);
  }

  lemma EdgeJoins(done: set<Path>, node: map<Path, TopologyNode>, edges: map<TopologyNode, TopologyNode>, p: Path)
    requires done <= node.Keys && OneToOne(node) && Closed(node) && EdgesFor(done, node, edges) && p in node && p != []
    ensures Parent(p) in node
    ensures EdgesFor(done + {p}, node, if node[p] in edges then edges else edges[node[p] := node[Parent(p)]])
  {
    var after := if node[p] in edges then edges else edges[node[p] := node[Parent(p)]];
    forall q | q in done + {p} && q != [] ensures LeadsUp(node, after, q) {
      if node[p] in edges {
        var r :| r in done && r != [] && node[p] == node[r];
        assert LeadsUp(node, edges, r) && r == p;
      }
      if q in done {
        assert LeadsUp(node, edges, q);
      }
    }
  }

  /** First writer wins, as with a dictionary's `setdefault`. */
  method AddEdges(before: map<TopologyNode, TopologyNode>, paths: set<Path>, node: map<Path, TopologyNode>, ghost done: set<Path>)
    returns (edges: map<TopologyNode, TopologyNode>)
    requires paths <= node.Keys && done <= node.Keys && OneToOne(node)
    requires Closed(node) && EdgesFor(done, node, before)
    ensures EdgesFor(done + paths, node, edges)
    ensures forall n :: n in before ==> n in edges && edges[n] == before[n]
  {
    edges := before;
    var todo := paths;
    while todo != {}
      invariant todo <= paths && EdgesFor(done + (paths - todo), node, edges)
      invariant forall n :: n in before ==> n in edges && edges[n] == before[n]
      decreases todo
    {
      var p :| p in todo;
      ghost var so := done + (paths - todo);
      assert done + (paths - (todo - {p})) == so + {p};
      if p != [] {
        EdgeJoins(so, node, edges, p);
        if node[p] !in edges {
          edges := edges[node[p] := node[Parent(p)]];
        }
      }
      todo := todo - {p};
    }
    assert done + (paths - todo) == done + paths;
  }

  /** The node of every candidate and declared path; under distinct identities no two share one. */
  method NameNodes(candidates: set<Path>, declared: set<Path>, existing: map<Path, nat>) returns (node: map<Path, TopologyNode>)
    requires DistinctIdentities(existing) && [] in candidates && [] !in declared
    ensures node.Keys == candidates + declared && OneToOne(node) && node[[]] == ProjectRoot
    ensures forall p :: p in declared ==> node[p] == Persistent(p)
  {
    var keys := map p | p in candidates :: KeyOf(existing, p);
    forall p, q | p in keys && q in keys && keys[p] == keys[q] ensures p == q {
      KeysDiffer(existing, p, q);
    }
    assert keys.Keys == candidates;
    var nodes, next := NodesByKey(keys, declared);
    node := map p | p in candidates + declared :: if p in declared then Persistent(p) else nodes.value[keys[p]];
    NodesAreOneToOne(existing, keys, declared, nodes.value, next, node);
  }

  /** Under distinct identities the topology is never refused and is the lexical tree. */
  method BuildTopology(declared: set<Path>, created: set<Path>, existing: map<Path, nat>)
    returns (edges: Option<map<TopologyNode, TopologyNode>>, node: map<Path, TopologyNode>)
    requires DistinctIdentities(existing) && [] !in declared && created <= declared
    ensures edges.Some? && LexicalTree(declared, node, edges.value)
    ensures node.Keys == Candidates(declared, created) + declared
  {
    var candidates := Candidates(declared, created);
    node := NameNodes(candidates, declared, existing);
    assert Closed(node) by {
      forall p | p in node && p != [] ensures Parent(p) in node {
        ParentIsCandidate(declared, created, p);
      }
    }
    var found := AddEdges(map[], candidates - {[]}, node, {});
    found := AddEdges(found, declared, node, {} + (candidates - {[]}));
    assert {} + (candidates - {[]}) + declared == node.Keys - {[]};
    edges := Some(found);
  }

  // ---- the re-checks ----

  /** The walk up from `path` stands at its prefix of length `k`. */
  ghost predicate StandsAt(node: map<Path, TopologyNode>, path: Path, k: int, ancestor: TopologyNode) {
    0 <= k < |path| && path[..k] in node && node[path[..k]] == ancestor
  }

  /** One step up drops one component; the walk ends at the root and nowhere else. */
  lemma StepUp(declared: set<Path>, node: map<Path, TopologyNode>, edges: map<TopologyNode, TopologyNode>, path: Path, k: nat, ancestor: TopologyNode)
    requires LexicalTree(declared, node, edges) && StandsAt(node, path, k, ancestor)
    ensures ancestor in edges <==> k > 0
    ensures k > 0 ==> StandsAt(node, path, k - 1, edges[ancestor])
    ensures ancestor.Persistent? && ancestor.path in declared ==> ancestor.path == path[..k]
    ensures path[..k] in declared ==> ancestor == Persistent(path[..k])
  {
    if k > 0 {
      assert Parent(path[..k]) == path[..k - 1];
      assert LeadsUp(node, edges, path[..k]);
    } else {
      assert path[..k] == [];
    }
  }

  lemma StartsUp(declared: set<Path>, node: map<Path, TopologyNode>, edges: map<TopologyNode, TopologyNode>, path: Path)
    requires LexicalTree(declared, node, edges) && path in declared
    ensures Persistent(path) in edges && StandsAt(node, path, |path| - 1, edges[Persistent(path)])
  {
    assert node[path] == Persistent(path);
    assert LeadsUp(node, edges, path);
  }

  predicate Bears(surface: Surface, p: Path, q: Path)
    requires q in surface
  {
    p in surface && !surface[p].DirectoryState? ==> surface[q].Absent?
  }

  /** The walk up from `path` visits exactly its lexical ancestors, so it refuses exactly when one of them
      cannot contain what `path` declares.  */
  method PathFits(path: Path, surface: Surface, edges: map<TopologyNode, TopologyNode>, ghost node: map<Path, TopologyNode>) returns (ok: bool)
    requires path in surface && LexicalTree(surface.Keys, node, edges)
    ensures ok <==> forall k :: 0 <= k < |path| ==> Bears(surface, path[..k], path)
  {
    StartsUp(surface.Keys, node, edges, path);
    var ancestor := edges[Persistent(path)];
    ghost var k := |path| - 1;
    while ancestor in edges
      invariant StandsAt(node, path, k, ancestor)
      invariant forall j :: k < j < |path| ==> Bears(surface, path[..j], path)
      decreases k
    {
      StepUp(surface.Keys, node, edges, path, k, ancestor);
      if ancestor.Persistent? && ancestor.path in surface
         && !surface[ancestor.path].DirectoryState? && !surface[path].Absent? {
        assert !Bears(surface, path[..k], path);
        return false;
      }
      ancestor := edges[ancestor];
      k := k - 1;
    }
    StepUp(surface.Keys, node, edges, path, k, ancestor);
    assert path[..0] == [];
    return true;
  }

  /** The resolved surface check accepts exactly the surfaces phase 12 accepts. */
  method SurfaceRecheck(surface: Surface, edges: map<TopologyNode, TopologyNode>, ghost node: map<Path, TopologyNode>) returns (ok: bool)
    requires LexicalTree(surface.Keys, node, edges)
    ensures ok <==> TreeRule(surface)
  {
    var todo := surface.Keys;
    while todo != {}
      invariant todo <= surface.Keys
      invariant forall q, k :: q in surface && q !in todo && 0 <= k < |q| ==> Bears(surface, q[..k], q)
      decreases todo
    {
      var path :| path in todo;
      var fits := PathFits(path, surface, edges, node);
      if !fits {
        ghost var k :| 0 <= k < |path| && !Bears(surface, path[..k], path);
        assert Above(path[..k], path);
        return false;
      }
      todo := todo - {path};
    }
    forall p, q | p in surface && q in surface && Above(p, q) && !surface[p].DirectoryState? ensures surface[q].Absent? {
      assert Bears(surface, q[..|p|], q);
    }
    return true;
  }

  /** The last effect that creates each path. */
  ghost predicate LastCreators(effects: seq<Effect>, n: nat, creators: map<TopologyNode, nat>)
    requires n <= |effects|
  {
    && (forall a :: a in creators ==> creators[a] < n && effects[creators[a]].CreateDirectory? && a == Persistent(effects[creators[a]].path))
    && forall j :: 0 <= j < n && effects[j].CreateDirectory? ==>
      Persistent(effects[j].path) in creators && j <= creators[Persistent(effects[j].path)]
  }

  method Creators(effects: seq<Effect>) returns (creators: map<TopologyNode, nat>)
    ensures LastCreators(effects, |effects|, creators)
  {
    creators := map[];
    for i := 0 to |effects|
      invariant LastCreators(effects, i, creators)
    {
      if effects[i].CreateDirectory? {
        creators := creators[Persistent(effects[i].path) := i];
      }
    }
  }

  predicate InTime(creators: map<TopologyNode, nat>, p: Path, index: nat) {
    Persistent(p) in creators ==> creators[Persistent(p)] < index
  }

  ghost predicate CreatorsDeclared(creators: map<TopologyNode, nat>, declared: set<Path>) {
    forall a :: a in creators ==> a.Persistent? && a.path in declared
  }

  ghost predicate Declares(effects: seq<Effect>, i: nat, declared: set<Path>)
    requires i < |effects|
  {
    forall o :: o in Occurrences(effects[i]) ==> o.path in declared
  }

  method AncestorsInTime(path: Path, index: nat, creators: map<TopologyNode, nat>, edges: map<TopologyNode, TopologyNode>,
                         ghost declared: set<Path>, ghost node: map<Path, TopologyNode>) returns (ok: bool)
    requires path in declared && LexicalTree(declared, node, edges)
    requires CreatorsDeclared(creators, declared)
    ensures ok <==> forall k :: 0 <= k < |path| ==> InTime(creators, path[..k], index)
  {
    StartsUp(declared, node, edges, path);
    var ancestor := edges[Persistent(path)];
    ghost var k := |path| - 1;
    while ancestor in edges
      invariant StandsAt(node, path, k, ancestor)
      invariant forall j :: k < j < |path| ==> InTime(creators, path[..j], index)
      decreases k
    {
      StepUp(declared, node, edges, path, k, ancestor);
      if ancestor in creators && creators[ancestor] >= index {
        assert !InTime(creators, path[..k], index);
        return false;
      }
      ancestor := edges[ancestor];
      k := k - 1;
    }
    StepUp(declared, node, edges, path, k, ancestor);
    assert path[..0] == [];
    return true;
  }

  lemma InTimeIsEarlier(effects: seq<Effect>, creators: map<TopologyNode, nat>, path: Path, i: nat)
    requires LastCreators(effects, |effects|, creators) && Persistent([]) !in creators
    ensures (forall k :: 0 <= k < |path| ==> InTime(creators, path[..k], i)) <==> AncestorsEarlier(effects, i, path)
  {
    forall k | 0 <= k < |path| && !InTime(creators, path[..k], i) ensures !AncestorsEarlier(effects, i, path) {
      assert Creates(effects, creators[Persistent(path[..k])], path);
    }
    forall j | Creates(effects, j, path) && j >= i ensures exists k :: 0 <= k < |path| && !InTime(creators, path[..k], i) {
      var k := |effects[j].path|;
      assert path[..k] == effects[j].path;
      assert !InTime(creators, path[..k], i);
    }
  }

  method EffectInTime(effects: seq<Effect>, i: nat, creators: map<TopologyNode, nat>, edges: map<TopologyNode, TopologyNode>,
                      ghost declared: set<Path>, ghost node: map<Path, TopologyNode>) returns (ok: bool)
    requires i < |effects| && LexicalTree(declared, node, edges) && LastCreators(effects, |effects|, creators)
    requires CreatorsDeclared(creators, declared)
    requires Declares(effects, i, declared)
    ensures ok <==> EffectEarly(effects, i)
  {
    var occs := Occurrences(effects[i]);
    for n := 0 to |occs|
      invariant forall m :: 0 <= m < n ==> AncestorsEarlier(effects, i, occs[m].path)
    {
      assert occs[n] in Occurrences(effects[i]);
      InTimeIsEarlier(effects, creators, occs[n].path, i);
      var fine := AncestorsInTime(occs[n].path, i, creators, edges, declared, node);
      if !fine {
        assert occs[n] in Occurrences(effects[i]) && !AncestorsEarlier(effects, i, occs[n].path);
        return false;
      }
    }
    return true;
  }

  ghost predicate EffectEarly(effects: seq<Effect>, i: nat)
    requires i < |effects|
  {
    forall o :: o in Occurrences(effects[i]) ==> AncestorsEarlier(effects, i, o.path)
  }

  lemma CreatorsAreDeclared(effects: seq<Effect>, creators: map<TopologyNode, nat>, declared: set<Path>)
    requires LastCreators(effects, |effects|, creators)
    requires forall i :: 0 <= i < |effects| ==> Declares(effects, i, declared)
    ensures CreatorsDeclared(creators, declared)
  {
    forall a | a in creators ensures a.Persistent? && a.path in declared {
      assert Declares(effects, creators[a], declared);
      assert Occurrences(effects[creators[a]])[0].path == a.path;
    }
  }

  /** The resolved ordering check accepts exactly the effect orders phase 13 accepts. */
  method OrderRecheck(effects: seq<Effect>, edges: map<TopologyNode, TopologyNode>,
                      ghost declared: set<Path>, ghost node: map<Path, TopologyNode>) returns (ok: bool)
    requires LexicalTree(declared, node, edges)
    requires forall i :: 0 <= i < |effects| ==> Declares(effects, i, declared)
    ensures ok <==> OrderRule(effects)
  {
    var creators := Creators(effects);
    CreatorsAreDeclared(effects, creators, declared);
    for i := 0 to |effects|
      invariant forall k :: 0 <= k < i ==> EffectEarly(effects, k)
    {
      var fine := EffectInTime(effects, i, creators, edges, declared, node);
      if !fine {
        ghost var o :| o in Occurrences(effects[i]) && !AncestorsEarlier(effects, i, o.path);
        return false;
      }
    }
    forall i, o | 0 <= i < |effects| && o in Occurrences(effects[i]) ensures AncestorsEarlier(effects, i, o.path) {
      assert EffectEarly(effects, i);
    }
    return true;
  }
}
