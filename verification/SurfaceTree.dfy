/** Phases 12 and 13: the trie walks, proved equal to the pairwise rules they stand for. */
module SurfaceTree {
  import opened ChainModel
  import opened Effects
  import opened PathTrie

  /** `p` is a proper ancestor of `q`. */
  predicate Above(p: Path, q: Path) {
    |p| < |q| && p == q[..|p|]
  }

  // ---- phase 12 ----

  /** Nothing declared beneath a declared non-directory may be present. */
  predicate TreeRule(surface: Surface) {
    forall p, q :: p in surface && q in surface && Above(p, q) && !surface[p].DirectoryState? ==> surface[q].Absent?
  }

  /** The rule, inside one subtrie. */
  ghost predicate SubtreeRule(t: Trie<PathState>) {
    forall p, q :: Lookup(t, p).Some? && Lookup(t, q).Some? && Above(p, q) && !Lookup(t, p).value.DirectoryState?
      ==> Lookup(t, q).value.Absent?
  }

  ghost predicate AllAbsent(t: Trie<PathState>) {
    forall p :: Lookup(t, p).Some? ==> Lookup(t, p).value.Absent?
  }

  /** What is required of a subtrie reached under a constraint. */
  ghost predicate Required(t: Trie<PathState>, constrained: bool) {
    SubtreeRule(t) && (constrained ==> AllAbsent(t))
  }

  function NextConstraint(t: Trie<PathState>, constrained: bool): bool {
    if t.value.Some? then !t.value.value.DirectoryState? else constrained
  }

  predicate NodeOk(t: Trie<PathState>, constrained: bool) {
    constrained && t.value.Some? ==> t.value.value.Absent?
  }

  /** Carrying only the nearest declared constraint loses nothing: a node's requirement is its own check
      and its children's requirements under the constraint it passes down.  */
  lemma RequirementSplits(t: Trie<PathState>, constrained: bool)
    requires Proper(t)
    ensures Required(t, constrained) <==>
      && NodeOk(t, constrained)
      && forall i :: 0 <= i < |t.children| ==> Required(t.children[i].1, NextConstraint(t, constrained))
  {
    if Required(t, constrained) {
      assert Lookup(t, []) == t.value;
      forall i | 0 <= i < |t.children|
        ensures Required(t.children[i].1, NextConstraint(t, constrained))
      {
        ChildInherits(t, constrained, i);
      }
    }
    if NodeOk(t, constrained) && forall i :: 0 <= i < |t.children| ==> Required(t.children[i].1, NextConstraint(t, constrained)) {
      ChildrenSuffice(t, constrained);
    }
  }

  lemma ChildObeys(t: Trie<PathState>, i: nat, p: Path, q: Path)
    requires Proper(t) && SubtreeRule(t) && i < |t.children|
    requires Lookup(t.children[i].1, p).Some? && Lookup(t.children[i].1, q).Some? && Above(p, q) && !Lookup(t.children[i].1, p).value.DirectoryState?
    ensures Lookup(t.children[i].1, q).value.Absent?
  {
    LookupThroughChild(t, i, p);
    LookupThroughChild(t, i, q);
    assert Above([t.children[i].0] + p, [t.children[i].0] + q);
  }

  lemma ChildIsAbsent(t: Trie<PathState>, constrained: bool, i: nat, p: Path)
    requires Proper(t) && Required(t, constrained) && i < |t.children|
    requires NextConstraint(t, constrained) && Lookup(t.children[i].1, p).Some?
    ensures Lookup(t.children[i].1, p).value.Absent?
  {
    LookupThroughChild(t, i, p);
    assert Above([], [t.children[i].0] + p);
    assert Lookup(t, []) == t.value;
  }

  lemma ChildInherits(t: Trie<PathState>, constrained: bool, i: nat)
    requires Proper(t) && Required(t, constrained) && i < |t.children|
    ensures Required(t.children[i].1, NextConstraint(t, constrained))
  {
    var child := t.children[i].1;
    forall p, q | Lookup(child, p).Some? && Lookup(child, q).Some? && Above(p, q) && !Lookup(child, p).value.DirectoryState?
      ensures Lookup(child, q).value.Absent?
    {
      ChildObeys(t, i, p, q);
    }
    forall p | NextConstraint(t, constrained) && Lookup(child, p).Some?
      ensures Lookup(child, p).value.Absent?
    {
      ChildIsAbsent(t, constrained, i, p);
    }
  }

  lemma SplitPath(t: Trie<PathState>, q: Path) returns (i: nat)
    requires Proper(t) && q != [] && Lookup(t, q).Some?
    ensures i < |t.children| && t.children[i].0 == q[0] && Lookup(t, q) == Lookup(t.children[i].1, q[1..])
  {
    i := Position(t.children, q[0]);
  }

  lemma ChildrenSuffice(t: Trie<PathState>, constrained: bool)
    requires Proper(t) && NodeOk(t, constrained)
    requires forall i :: 0 <= i < |t.children| ==> Required(t.children[i].1, NextConstraint(t, constrained))
    ensures Required(t, constrained)
  {
    forall p, q | Lookup(t, p).Some? && Lookup(t, q).Some? && Above(p, q) && !Lookup(t, p).value.DirectoryState?
      ensures Lookup(t, q).value.Absent?
    {
      var i := SplitPath(t, q);
      assert Required(t.children[i].1, NextConstraint(t, constrained));
      if p != [] {
        var j := SplitPath(t, p);
        assert p[0] == q[0];
        assert i == j;
        assert Above(p[1..], q[1..]);
      }
    }
    forall p | constrained && Lookup(t, p).Some?
      ensures Lookup(t, p).value.Absent?
    {
      if p != [] {
        var i := SplitPath(t, p);
        assert Required(t.children[i].1, NextConstraint(t, constrained));
      }
    }
  }

  datatype Frame = Frame(node: Trie<PathState>, constrained: bool)

  function StackSize(stack: seq<Frame>): nat {
    if stack == [] then 0 else StackSize(stack[..|stack| - 1]) + Size(stack[|stack| - 1].node)
  }

  /** The explicit-stack walk: it accepts exactly when the requirement holds. */
  method Walk(root: Trie<PathState>) returns (ok: bool)
    requires Proper(root)
    ensures ok <==> SubtreeRule(root)
  {
    var stack := [Frame(root, false)];
    while stack != []
      invariant forall f :: f in stack ==> Proper(f.node)
      invariant SubtreeRule(root) <==> forall f :: f in stack ==> Required(f.node, f.constrained)
      decreases StackSize(stack)
    {
      var top, rest := stack[|stack| - 1], stack[..|stack| - 1];
      assert stack == rest + [top];
      RequirementSplits(top.node, top.constrained);
      if !NodeOk(top.node, top.constrained) {
        return false;
      }
      stack := Push(rest, top.node, NextConstraint(top.node, top.constrained));
    }
    return true;
  }

  method Push(rest: seq<Frame>, node: Trie<PathState>, constrained: bool) returns (stack: seq<Frame>)
    ensures forall f :: f in stack <==> f in rest || exists i :: 0 <= i < |node.children| && f == Frame(node.children[i].1, constrained)
    ensures StackSize(stack) == StackSize(rest) + SizeAll(node, |node.children|)
  {
    stack := rest;
    for i := 0 to |node.children|
      invariant forall f :: f in stack <==> f in rest || exists k :: 0 <= k < i && f == Frame(node.children[k].1, constrained)
      invariant StackSize(stack) == StackSize(rest) + SizeAll(node, i)
    {
      ghost var before := stack;
      stack := stack + [Frame(node.children[i].1, constrained)];
      assert stack[..|stack| - 1] == before;
    }
  }

  method BuildTrie(surface: Surface) returns (root: Trie<PathState>)
    ensures Proper(root)
    ensures forall p :: Lookup(root, p) == if p in surface then Some(surface[p]) else None
  {
    root := EmptyTrie();
    var todo := surface.Keys;
    forall q ensures Lookup(root, q) == None {
      LookupEmpty<PathState>(q);
    }
    while todo != {}
      invariant todo <= surface.Keys && Proper(root)
      invariant forall q :: Lookup(root, q) == if q in surface && q !in todo then Some(surface[q]) else None
      decreases todo
    {
      var p :| p in todo;
      forall q {
        LookupInsert(root, p, surface[p], q);
      }
      InsertKeepsProper(root, p, surface[p]);
      root := Insert(root, p, surface[p]);
      todo := todo - {p};
    }
  }

  /** Phase 12 accepts exactly the surfaces that obey the pairwise rule. */
  method SurfaceTreeOk(surface: Surface) returns (ok: bool)
    ensures ok <==> TreeRule(surface)
  {
    var root := BuildTrie(surface);
    ok := Walk(root);
    assert SubtreeRule(root) <==> TreeRule(surface);
  }

  // ---- phase 13 ----

  /** Effect `j` creates a proper ancestor of `path`. */
  predicate Creates(effects: seq<Effect>, j: int, path: Path) {
    0 <= j < |effects| && effects[j].CreateDirectory? && effects[j].path != [] && Above(effects[j].path, path)
  }

  ghost predicate AncestorsEarlier(effects: seq<Effect>, i: int, path: Path) {
    forall j :: Creates(effects, j, path) ==> j < i
  }

  /** Every directory creation comes before every occurrence strictly beneath it. */
  ghost predicate OrderRule(effects: seq<Effect>) {
    forall i, o :: 0 <= i < |effects| && o in Occurrences(effects[i]) ==> AncestorsEarlier(effects, i, o.path)
  }

  /** Whatever effect `i` names lies below no directory that `i` or a later effect creates. */
  lemma OrderIsPairwise(effects: seq<Effect>)
    ensures OrderRule(effects) <==>
      forall i, j, q :: 0 <= i < |effects| && 0 <= j < |effects| && q in Paths(effects[i]) ==>
        (effects[j].CreateDirectory? && effects[j].path != [] && effects[j].path < q ==> j < i)
  {
    forall i, q | 0 <= i < |effects| ensures q in Paths(effects[i]) <==> exists o :: o in Occurrences(effects[i]) && o.path == q {
      var occs := Occurrences(effects[i]);
      OneOrTwo(occs[0], occs[|occs| - 1]);
      assert occs == [occs[0]] || occs == [occs[0], occs[|occs| - 1]];
      assert occs[0] in occs && occs[|occs| - 1] in occs;
    }
    if OrderRule(effects) {
      forall i, j, q | 0 <= i < |effects| && 0 <= j < |effects| && effects[j].CreateDirectory? && q in Paths(effects[i])
        && effects[j].path != [] && effects[j].path < q ensures j < i {
        var o :| o in Occurrences(effects[i]) && o.path == q;
        assert AncestorsEarlier(effects, i, o.path) && Creates(effects, j, q);
      }
    } else {
      var i, o :| 0 <= i < |effects| && o in Occurrences(effects[i]) && !AncestorsEarlier(effects, i, o.path);
      var j :| Creates(effects, j, o.path) && !(j < i);
      assert o.path in Paths(effects[i]) && effects[j].path < o.path;
    }
  }

  /** The trie holds, for each created path, the last effect that creates it. */
  ghost predicate HoldsCreators(effects: seq<Effect>, n: nat, root: Trie<nat>)
    requires n <= |effects|
  {
    && Proper(root)
    && (forall p :: Lookup(root, p).Some? ==>
          var c := Lookup(root, p).value;
          c < n && effects[c].CreateDirectory? && effects[c].path == p)
    && forall j :: 0 <= j < n && effects[j].CreateDirectory? ==>
      Lookup(root, effects[j].path).Some? && j <= Lookup(root, effects[j].path).value
  }

  lemma CreatorJoins(effects: seq<Effect>, i: nat, root: Trie<nat>)
    requires i < |effects| && HoldsCreators(effects, i, root) && effects[i].CreateDirectory?
    ensures HoldsCreators(effects, i + 1, Insert(root, effects[i].path, i))
  {
    var after := Insert(root, effects[i].path, i);
    InsertKeepsProper(root, effects[i].path, i);
    forall q ensures Lookup(after, q) == if q == effects[i].path then Some(i) else Lookup(root, q) {
      LookupInsert(root, effects[i].path, i, q);
    }
  }

  method BuildCreators(effects: seq<Effect>) returns (root: Trie<nat>)
    ensures HoldsCreators(effects, |effects|, root)
  {
    root := EmptyTrie();
    forall q ensures Lookup(root, q) == None {
      LookupEmpty<nat>(q);
    }
    for i := 0 to |effects|
      invariant HoldsCreators(effects, i, root)
    {
      if effects[i].CreateDirectory? {
        CreatorJoins(effects, i, root);
        root := Insert(root, effects[i].path, i);
      }
    }
  }

  predicate Timely(root: Trie<nat>, p: Path, index: nat) {
    Lookup(root, p).Some? ==> Lookup(root, p).value < index
  }

  /** No creator met on the way down to `path` is as late as `index`. */
  method AncestorsCreatedBefore(root: Trie<nat>, path: Path, index: nat) returns (ok: bool)
    ensures ok <==> forall k :: 0 < k < |path| ==> Timely(root, path[..k], index)
  {
    var node := root;
    for k := 0 to if path == [] then 0 else |path| - 1
      invariant Descend(root, path[..k]) == Some(node)
      invariant forall m :: 0 < m <= k ==> Timely(root, path[..m], index)
    {
      assert path[..k + 1] == path[..k] + [path[k]];
      DescendStep(root, path[..k], path[k]);
      var child := Child(node, path[k]);
      if child.None? {
        forall m | k < m < |path| ensures Timely(root, path[..m], index) {
          assert path[..m] == path[..k + 1] + path[k + 1..m];
          DescendNone(root, path[..k + 1], path[k + 1..m]);
          LookupIsDescend(root, path[..m]);
        }
        return true;
      }
      node := child.value;
      LookupIsDescend(root, path[..k + 1]);
      if node.value.Some? && node.value.value >= index {
        assert !Timely(root, path[..k + 1], index);
        return false;
      }
    }
    return true;
  }

  lemma TimelyIsEarlier(effects: seq<Effect>, root: Trie<nat>, path: Path, i: nat)
    requires HoldsCreators(effects, |effects|, root)
    ensures (forall k :: 0 < k < |path| ==> Timely(root, path[..k], i)) <==> AncestorsEarlier(effects, i, path)
  {
    forall k | 0 < k < |path| && !Timely(root, path[..k], i) ensures !AncestorsEarlier(effects, i, path) {
      assert Creates(effects, Lookup(root, path[..k]).value, path);
    }
    forall j | Creates(effects, j, path) && j >= i
      ensures exists k :: 0 < k < |path| && !Timely(root, path[..k], i)
    {
      var k := |effects[j].path|;
      assert path[..k] == effects[j].path;
      assert !Timely(root, path[..k], i);
    }
  }

  /** Phase 13 accepts exactly the effect orders that obey the pairwise rule. */
  method AncestorOrderOk(effects: seq<Effect>) returns (ok: bool)
    ensures ok <==> OrderRule(effects)
  {
    var root := BuildCreators(effects);
    for i := 0 to |effects|
      invariant forall k, o :: 0 <= k < i && o in Occurrences(effects[k]) ==> AncestorsEarlier(effects, k, o.path)
    {
      var occs := Occurrences(effects[i]);
      for n := 0 to |occs|
        invariant forall o :: o in occs[..n] ==> AncestorsEarlier(effects, i, o.path)
      {
        TimelyIsEarlier(effects, root, occs[n].path, i);
        var fine := AncestorsCreatedBefore(root, occs[n].path, i);
        if !fine {
          assert occs[n] in Occurrences(effects[i]);
          return false;
        }
        assert occs[..n + 1] == occs[..n] + [occs[n]];
      }
      assert occs[..|occs|] == occs;
    }
    return true;
  }
}
