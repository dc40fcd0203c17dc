/** The compiler's checks taken together, the resolved re-check of the same rules, and what the two buy. */
module Compiler {
  import opened ChainModel
  import opened Effects
  import opened SurfaceTree
  import Judgment
  import Timeline
  import Topology
  import TreeConsistency

  /** What a specification must satisfy: well-shaped effects that really take the initial surface to the
      final one, both surfaces trees, and every directory created before anything beneath it.  */
  ghost predicate Compiled(effects: seq<Effect>, initial: Surface, final: Surface) {
    && (forall i :: 0 <= i < |effects| ==> WellShaped(effects[i]))
    && Realizes(effects, initial, final)
    && TreeRule(initial) && TreeRule(final) && OrderRule(effects)
  }

  /** Phases 5 and 10 to 13, in order, accept exactly the specifications that satisfy the rule. */
  method CompileSpec(effects: seq<Effect>, initial: Surface, final: Surface) returns (ok: bool)
    ensures ok <==> Compiled(effects, initial, final)
  {
    for i := 0 to |effects|
      invariant forall k :: 0 <= k < i ==> WellShaped(effects[k])
    {
      if !WellShaped(effects[i]) {
        return false;
      }
    }
    ok := Timeline.ChecksExecution(effects, initial, final);
    if ok {
      ok := SurfaceTreeOk(initial);
    }
    if ok {
      ok := SurfaceTreeOk(final);
    }
    if ok {
      ok := AncestorOrderOk(effects);
    }
  }

  lemma {:induction false} OccurrencesAreTouched(effects: seq<Effect>, i: nat, o: Occurrence)
    requires i < |effects| && o in Occurrences(effects[i])
    ensures o.path in Touched(effects)
    decreases |effects|
  {
    if i > 0 {
      OccurrencesAreTouched(effects[1..], i - 1, o);
    }
  }

  lemma {:induction false} ExecuteKeepsKeys(effects: seq<Effect>, s: Surface)
    requires Execute(effects, s).Some?
    ensures Execute(effects, s).value.Keys == s.Keys
  {
    if effects != [] {
      assert forall o :: o in Occurrences(effects[0]) ==> o.path in s;
      TreeConsistency.PerformKeeps(effects[0], s);
      ExecuteKeepsKeys(effects[1..], Perform(effects[0], s));
    }
  }

  /** The directories the effects create. */
  function CreatedPaths(effects: seq<Effect>): (created: set<Path>)
    ensures forall i :: 0 <= i < |effects| && effects[i].CreateDirectory? ==> effects[i].path in created
  {
    set e | e in effects && e.CreateDirectory? :: e.path
  }

  /** Once a specification compiles, the rules re-derived over resolved directories never refuse it. */
  method ResolvedRecheck(effects: seq<Effect>, initial: Surface, final: Surface, existing: map<Path, nat>) returns (ok: bool)
    requires Topology.DistinctIdentities(existing)
    requires Compiled(effects, initial, final) && [] !in initial
    ensures ok
  {
    ExecuteKeepsKeys(effects, initial);
    forall i, o | 0 <= i < |effects| && o in Occurrences(effects[i]) ensures o.path in initial {
      OccurrencesAreTouched(effects, i, o);
    }
    forall p | p in CreatedPaths(effects) ensures p in initial {
      var e :| e in effects && e.CreateDirectory? && e.path == p;
      var i :| 0 <= i < |effects| && effects[i] == e;
      assert Occurrences(effects[i])[0].path == p;
    }
    var edges, node := Topology.BuildTopology(initial.Keys, CreatedPaths(effects), existing);
    var first := Topology.SurfaceRecheck(initial, edges.value, node);
    var second := Topology.SurfaceRecheck(final, edges.value, node);
    var third := Topology.OrderRecheck(effects, edges.value, initial.Keys, node);
    ok := first && second && third;
  }

  /** Of a compiled specification on the disk it describes, the ancestor judgment accepts exactly what
      passes only through trees and names what its parents can hold.  */
  method JudgeAncestors(effects: seq<Effect>, ghost initial: Surface, ghost final: Surface, world: Judgment.World, declared: set<Path>, tooLong: set<Path>)
    returns (ok: bool)
    requires Compiled(effects, initial, final) && declared == initial.Keys && Judgment.Rooted(declared)
    requires TreeConsistency.MatchesDisk(initial, world) && TreeConsistency.Grounded(world)
    ensures ok <==>
      && (forall n :: 0 <= n <= |effects| ==> TreeConsistency.IsTree(world, TreeConsistency.After(effects, initial, n)))
      && forall p :: p in declared ==> Judgment.NamesFit(world, p, tooLong)
  {
    TreeConsistency.JudgmentIsExact(effects, initial, final, world);
    ok := Judgment.RequireAncestorsLegal(effects, declared, world, tooLong);
  }

  /** A compiled specification whose ancestors are judged legal on the disk it describes leaves a tree after
      any number of its effects, and each effect finds its parents.  */
  lemma CompiledRunsStayTrees(effects: seq<Effect>, initial: Surface, final: Surface, world: Judgment.World, n: nat)
    requires Compiled(effects, initial, final) && Judgment.Rooted(initial.Keys)
    requires TreeConsistency.MatchesDisk(initial, world) && TreeConsistency.Grounded(world)
    requires Judgment.AncestorsLegal(effects, initial.Keys, world)
    requires n <= |effects|
    ensures TreeConsistency.IsTree(world, TreeConsistency.After(effects, initial, n))
    ensures n < |effects| ==> forall q :: q in Paths(effects[n]) ==>
      TreeConsistency.AncestorsAreDirectories(world, TreeConsistency.After(effects, initial, n), q)
  {
    TreeConsistency.EveryStateIsATree(effects, initial, final, world, n);
    if n < |effects| {
      forall q | q in Paths(effects[n])
        ensures TreeConsistency.AncestorsAreDirectories(world, TreeConsistency.After(effects, initial, n), q)
      {
        TreeConsistency.EveryEffectFindsItsParents(effects, initial, final, world, n, q);
      }
    }
  }

  // ---- what may change into what ----

  lemma OneEffectIsOrdered(e: Effect)
    ensures OrderRule([e])
  {
    forall i, o | 0 <= i < 1 && o in Occurrences([e][i]) ensures AncestorsEarlier([e], i, o.path) {
      if e.CreateDirectory? {
        OneOrTwo(o, o);
        assert Occurrences(e) == [Occurrences(e)[0]] && o == Occurrences(e)[0];
      }
    }
  }

  /** One effect runs between exactly the two surfaces it names. */
  lemma OneEffectRealizes(e: Effect, initial: Surface, final: Surface)
    requires e.Move? ==> e.source != e.destination
    ensures e.ReplaceFile? ==> (Realizes([e], initial, final) <==> initial == map[e.path := e.pre] && final == map[e.path := e.post])
    ensures e.CreateFile? || e.CreateDirectory? ==>
      (Realizes([e], initial, final) <==> initial == map[e.path := Absent] && final == map[e.path := e.post])
    ensures e.DeletePath? ==> (Realizes([e], initial, final) <==> initial == map[e.path := e.pre] && final == map[e.path := Absent])
    ensures e.Move? ==>
      (Realizes([e], initial, final) <==>
        && initial == map[e.source := e.pre, e.destination := Absent]
        && final == map[e.source := Absent, e.destination := e.pre])
  {
    OneEffect(e, initial);
    assert [e][1..] == [] && [e][0] == e;
    assert Touched([e]) == Paths(e);
    if e.Move? {
      assert map[e.source := e.pre, e.destination := Absent].Keys == Paths(e);
      if initial.Keys == Paths(e) && initial[e.source] == e.pre && initial[e.destination] == Absent {
        assert initial == map[e.source := e.pre, e.destination := Absent];
        assert initial[e.source := Absent][e.destination := e.pre] == map[e.source := Absent, e.destination := e.pre];
      }
    } else if e.path in initial && initial.Keys == Paths(e) {
      assert initial == map[e.path := initial[e.path]];
      var left := if e.DeletePath? then Absent else e.post;
      assert initial[e.path := left] == map[e.path := left];
    }
  }

  lemma OnePathIsTree(p: Path, state: PathState)
    ensures TreeRule(map[p := state])
  {
  }

  /** Two paths, one present and one not, are a tree unless the present one lies below the other. */
  lemma TwoPathsAreTree(p: Path, q: Path, state: PathState)
    requires p != q && state.FileState?
    ensures TreeRule(map[p := state, q := Absent]) <==> !Above(q, p)
  {
    var s: Surface := map[p := state, q := Absent];
    if Above(q, p) {
      assert q in s && p in s && !s[q].DirectoryState? && !s[p].Absent?;
    }
  }

  /** One effect compiles alone exactly between the two surfaces it names, on the kinds it may hold. */
  lemma OneEffectCompiles(e: Effect, initial: Surface, final: Surface)
    ensures e.ReplaceFile? ==>
      (Compiled([e], initial, final) <==>
        e.pre.FileState? && e.post.FileState? && initial == map[e.path := e.pre] && final == map[e.path := e.post])
    ensures e.CreateFile? ==>
      (Compiled([e], initial, final) <==> e.post.FileState? && initial == map[e.path := Absent] && final == map[e.path := e.post])
    ensures e.DeletePath? ==>
      (Compiled([e], initial, final) <==>
        (e.pre.FileState? || e.pre.SymlinkState?) && initial == map[e.path := e.pre] && final == map[e.path := Absent])
    ensures e.Move? ==>
      (Compiled([e], initial, final) <==>
        && e.pre.FileState? && !(e.source <= e.destination) && !(e.destination <= e.source)
        && initial == map[e.source := e.pre, e.destination := Absent]
        && final == map[e.source := Absent, e.destination := e.pre])
    ensures e.CreateDirectory? ==>
      (Compiled([e], initial, final) <==> e.post.DirectoryState? && initial == map[e.path := Absent] && final == map[e.path := e.post])
  {
    OneEffectIsOrdered(e);
    if !WellShaped(e) {
      assert !WellShaped([e][0]);
    } else {
      OneEffectRealizes(e, initial, final);
      if e.Move? {
        TwoPathsAreTree(e.source, e.destination, e.pre);
        TwoPathsAreTree(e.destination, e.source, e.pre);
        assert map[e.source := Absent, e.destination := e.pre] == map[e.destination := e.pre, e.source := Absent];
      } else {
        forall state ensures TreeRule(map[e.path := state]) {
          OnePathIsTree(e.path, state);
        }
      }
    }
  }

  /** In a compiled run a directory, once there, stays as it is, a symlink is only ever one that was there
      from the start, and no declared path starts as a directory.  */
  lemma {:induction false} KindsOfChange(effects: seq<Effect>, initial: Surface, final: Surface, p: Path, n: nat, m: nat)
    requires Compiled(effects, initial, final) && n <= m <= |effects| && p in initial
    ensures TreeConsistency.After(effects, initial, n).Keys == TreeConsistency.After(effects, initial, m).Keys == initial.Keys
    ensures TreeConsistency.After(effects, initial, n)[p].DirectoryState? ==>
      TreeConsistency.After(effects, initial, m)[p] == TreeConsistency.After(effects, initial, n)[p]
    ensures TreeConsistency.After(effects, initial, m)[p].SymlinkState? ==>
      TreeConsistency.After(effects, initial, n)[p] == TreeConsistency.After(effects, initial, m)[p]
    ensures !initial[p].DirectoryState?
    decreases m
  {
    TreeConsistency.KeysStay(effects, initial, n);
    TreeConsistency.KeysStay(effects, initial, m);
    TreeConsistency.StartsNonDirectory(effects, initial, p);
    if n < m {
      KindsOfChange(effects, initial, final, p, n, m - 1);
      TreeConsistency.AfterStep(effects, initial, m - 1);
      TreeConsistency.PerformKeeps(effects[m - 1], TreeConsistency.After(effects, initial, m - 1));
    }
  }
}
