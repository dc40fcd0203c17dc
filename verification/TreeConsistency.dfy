/** Every intermediate state of an approved specification is a tree. */
module TreeConsistency {
  import opened ChainModel
  import opened Effects
  import opened SurfaceTree
  import opened Judgment

  predicate Shaped(effects: seq<Effect>) {
    forall i :: 0 <= i < |effects| ==> WellShaped(effects[i])
  }

  /** Entries exist only inside directories. */
  ghost predicate Grounded(world: World) {
    forall p, k :: p in world && 0 < k < |p| ==> p[..k] in world && world[p[..k]].DirectoryKind?
  }

  /** The declared initial states are what is on disk. */
  predicate MatchesDisk(initial: Surface, world: World) {
    forall p :: p in initial ==>
      match initial[p]
      case Absent => p !in world
      case FileState(_, _, _) => p in world && world[p].RegularKind?
      case SymlinkState(_, _) => p in world && world[p].SymlinkKind?
      case DirectoryState(_) => p in world && world[p].DirectoryKind?
  }

  // ---- the whole tree while the declared part is in state `s` ----

  predicate Present(world: World, s: Surface, p: Path) {
    if p in s then !s[p].Absent? else p in world
  }

  predicate IsDirectory(world: World, s: Surface, p: Path) {
    if p in s then s[p].DirectoryState? else p in world && world[p].DirectoryKind?
  }

  predicate AncestorsAreDirectories(world: World, s: Surface, p: Path) {
    forall k :: 0 < k < |p| ==> IsDirectory(world, s, p[..k])
  }

  ghost predicate IsTree(world: World, s: Surface) {
    forall p :: Present(world, s, p) ==> AncestorsAreDirectories(world, s, p)
  }

  // ---- running part of the effects ----

  lemma {:induction false} ExecuteSnoc(effects: seq<Effect>, s: Surface, n: nat)
    requires n < |effects| && Execute(effects, s).Some?
    ensures Execute(effects[..n], s).Some? && Enabled(effects[n], Execute(effects[..n], s).value)
    ensures Execute(effects[..n + 1], s) == Some(Perform(effects[n], Execute(effects[..n], s).value))
  {
    if n == 0 {
      assert effects[..1][1..] == [];
    } else {
      assert effects[..n][1..] == effects[1..][..n - 1] && effects[..n + 1][1..] == effects[1..][..n];
      ExecuteSnoc(effects[1..], Perform(effects[0], s), n - 1);
    }
  }

  /** The declared surface after the first `n` effects. */
  ghost function After(effects: seq<Effect>, initial: Surface, n: nat): (s: Surface)
    requires n <= |effects| && Execute(effects, initial).Some?
    ensures Some(s) == Execute(effects[..n], initial)
  {
    assert effects[..|effects|] == effects;
    if n < |effects| then
      ExecuteSnoc(effects, initial, n);
      Execute(effects[..n], initial).value
    else
      Execute(effects, initial).value
  }

  lemma AfterStep(effects: seq<Effect>, initial: Surface, n: nat)
    requires n < |effects| && Execute(effects, initial).Some?
    ensures Enabled(effects[n], After(effects, initial, n))
    ensures After(effects, initial, n + 1) == Perform(effects[n], After(effects, initial, n))
  {
    ExecuteSnoc(effects, initial, n);
  }

  lemma PerformKeeps(e: Effect, s: Surface)
    requires Enabled(e, s)
    ensures Paths(e) <= s.Keys && Perform(e, s).Keys == s.Keys
    ensures forall p :: p in s && p !in Paths(e) ==> Perform(e, s)[p] == s[p]
    ensures e.CreateDirectory? && WellShaped(e) ==> Perform(e, s)[e.path].DirectoryState?
    ensures WellShaped(e) ==> forall p :: p in Paths(e) ==> !s[p].DirectoryState?
  {
    var occs := Occurrences(e);
    assert occs[0] in occs && (e.Move? ==> occs[1] in occs);
  }

  lemma {:induction false} Untouched(effects: seq<Effect>, initial: Surface, p: Path, n: nat)
    requires n <= |effects| && Execute(effects, initial).Some? && p in initial
    requires forall i :: 0 <= i < n ==> p !in Paths(effects[i])
    ensures p in After(effects, initial, n) && After(effects, initial, n)[p] == initial[p]
  {
    if n > 0 {
      Untouched(effects, initial, p, n - 1);
      AfterStep(effects, initial, n - 1);
      PerformKeeps(effects[n - 1], After(effects, initial, n - 1));
    }
  }

  lemma {:induction false} KeysStay(effects: seq<Effect>, initial: Surface, n: nat)
    requires n <= |effects| && Execute(effects, initial).Some?
    ensures After(effects, initial, n).Keys == initial.Keys
  {
    if n > 0 {
      KeysStay(effects, initial, n - 1);
      AfterStep(effects, initial, n - 1);
      PerformKeeps(effects[n - 1], After(effects, initial, n - 1));
    }
  }

  /** Once created, a directory is never touched again. */
  lemma {:induction false} StaysDirectory(effects: seq<Effect>, initial: Surface, c: nat, n: nat)
    requires c < n <= |effects| && Execute(effects, initial).Some? && Shaped(effects)
    requires effects[c].CreateDirectory?
    ensures effects[c].path in After(effects, initial, n) && After(effects, initial, n)[effects[c].path].DirectoryState?
  {
    if c < n - 1 {
      StaysDirectory(effects, initial, c, n - 1);
    }
    AfterStep(effects, initial, n - 1);
    PerformKeeps(effects[n - 1], After(effects, initial, n - 1));
  }

  /** A touched path never starts as a directory. */
  lemma StartsNonDirectory(effects: seq<Effect>, initial: Surface, p: Path)
    requires Execute(effects, initial).Some? && Shaped(effects) && p in initial && p in Touched(effects)
    ensures !initial[p].DirectoryState?
  {
    TouchedByEffect(effects, p);
    var i := FirstOf(effects, Touches, p).value;
    Untouched(effects, initial, p, i);
    AfterStep(effects, initial, i);
    PerformKeeps(effects[i], After(effects, initial, i));
  }

  // ---- the theorem ----

  /** A well-shaped specification that executes, on a disk in the state it declares. */
  ghost predicate Described(effects: seq<Effect>, initial: Surface, final: Surface, world: World) {
    && Shaped(effects)
    && Realizes(effects, initial, final)
    && Judgment.Rooted(initial.Keys)
    && MatchesDisk(initial, world)
    && Grounded(world)
  }

  /** What approval has established. */
  ghost predicate Approved(effects: seq<Effect>, initial: Surface, final: Surface, world: World) {
    Described(effects, initial, final, world) && AncestorsLegal(effects, initial.Keys, world)
  }

  /** An ancestor of a declared path either is an undeclared directory already, or is created by this
      transaction before the path is first touched.  */
  lemma AncestorFate(effects: seq<Effect>, initial: Surface, final: Surface, world: World, q: Path, k: nat)
    requires Approved(effects, initial, final, world) && q in initial && 0 < k < |q|
    ensures (q[..k] !in initial && q[..k] in world && world[q[..k]].DirectoryKind?)
         || CreatedBefore(effects, q[..k], FirstOf(effects, Touches, q))
  {
    var a := q[..k];
    if a in initial {
      StartsNonDirectory(effects, initial, a);
    }
    if !(a !in initial && a in world && world[a].DirectoryKind?) {
      assert !(a in world && world[a].DirectoryKind?) by {
        if a in initial {
          assert MatchesDisk(initial, world);
        }
      }
      assert Depth(world, q, 0) < k;
      assert LegalPath(effects, world, q);
    }
  }

  lemma CreatedIsDirectory(effects: seq<Effect>, initial: Surface, world: World, a: Path, first: nat, n: nat)
    requires Shaped(effects) && Execute(effects, initial).Some?
    requires CreatedBefore(effects, a, Some(first)) && first <= n <= |effects|
    ensures IsDirectory(world, After(effects, initial, n), a)
  {
    StaysDirectory(effects, initial, FirstOf(effects, Creates, a).value, n);
  }

  lemma DeclaredAncestors(effects: seq<Effect>, initial: Surface, final: Surface, world: World, q: Path, n: nat)
    requires Approved(effects, initial, final, world) && q in initial && n <= |effects|
    requires exists i :: 0 <= i <= n && i < |effects| && q in Paths(effects[i])
    ensures AncestorsAreDirectories(world, After(effects, initial, n), q)
  {
    var first := FirstOf(effects, Touches, q);
    var i :| 0 <= i <= n && i < |effects| && q in Paths(effects[i]);
    assert Plays(effects[i], Touches, q);
    assert first.Some? && first.value <= n;
    KeysStay(effects, initial, n);
    forall k | 0 < k < |q| ensures IsDirectory(world, After(effects, initial, n), q[..k]) {
      AncestorFate(effects, initial, final, world, q, k);
      if CreatedBefore(effects, q[..k], first) {
        CreatedIsDirectory(effects, initial, world, q[..k], first.value, n);
      }
    }
  }

  /** When its turn comes, every path an effect touches lies inside existing directories. */
  lemma EveryEffectFindsItsParents(effects: seq<Effect>, initial: Surface, final: Surface, world: World, n: nat, q: Path)
    requires Approved(effects, initial, final, world) && n < |effects| && q in Paths(effects[n])
    ensures AncestorsAreDirectories(world, After(effects, initial, n), q)
  {
    TouchedByEffect(effects, q);
    DeclaredAncestors(effects, initial, final, world, q, n);
  }

  /** After any number of effects, every entry of the tree, declared or not, lies inside directories. */
  lemma EveryStateIsATree(effects: seq<Effect>, initial: Surface, final: Surface, world: World, n: nat)
    requires Approved(effects, initial, final, world) && n <= |effects|
    ensures IsTree(world, After(effects, initial, n))
  {
    var s := After(effects, initial, n);
    KeysStay(effects, initial, n);
    forall q | Present(world, s, q)
      ensures AncestorsAreDirectories(world, s, q)
    {
      if q in initial && exists i :: 0 <= i < n && q in Paths(effects[i]) {
        DeclaredAncestors(effects, initial, final, world, q, n);
      } else {
        if q in initial {
          Untouched(effects, initial, q, n);
        }
        assert q in world;
        forall k | 0 < k < |q| ensures IsDirectory(world, s, q[..k]) {
          UndeclaredDirectory(effects, initial, final, world, q[..k]);
        }
      }
    }
  }

  /** A directory already on disk is never a declared path. */
  lemma UndeclaredDirectory(effects: seq<Effect>, initial: Surface, final: Surface, world: World, a: Path)
    requires Approved(effects, initial, final, world) && a in world && world[a].DirectoryKind?
    ensures a !in initial
  {
    if a in initial {
      StartsNonDirectory(effects, initial, a);
      assert false;
    }
  }

  // ---- the judgment refuses nothing it could accept ----

  /** A directory that was none at first has been created. */
  lemma {:induction false} DirectoryWasCreated(effects: seq<Effect>, initial: Surface, p: Path, n: nat) returns (c: nat)
    requires n <= |effects| && Execute(effects, initial).Some? && Shaped(effects) && p in initial
    requires p in After(effects, initial, n) && After(effects, initial, n)[p].DirectoryState? && !initial[p].DirectoryState?
    ensures c < n && effects[c].CreateDirectory? && effects[c].path == p
  {
    AfterStep(effects, initial, n - 1);
    KeysStay(effects, initial, n - 1);
    var e, s := effects[n - 1], After(effects, initial, n - 1);
    PerformKeeps(e, s);
    if e.CreateDirectory? && e.path == p {
      c := n - 1;
    } else {
      c := DirectoryWasCreated(effects, initial, p, n - 1);
    }
  }

  /** A present path that is gone has been removed. */
  lemma {:induction false} GoneWasRemoved(effects: seq<Effect>, initial: Surface, p: Path, n: nat) returns (r: nat)
    requires n <= |effects| && Execute(effects, initial).Some? && Shaped(effects) && p in initial
    requires p in After(effects, initial, n) && After(effects, initial, n)[p].Absent? && !initial[p].Absent?
    ensures r < n && Plays(effects[r], Removes, p)
  {
    AfterStep(effects, initial, n - 1);
    KeysStay(effects, initial, n - 1);
    PerformKeeps(effects[n - 1], After(effects, initial, n - 1));
    if Plays(effects[n - 1], Removes, p) {
      r := n - 1;
    } else {
      r := GoneWasRemoved(effects, initial, p, n - 1);
    }
  }

  /** The effect that first touches an absent path makes it present. */
  lemma FirstTouchMakes(effects: seq<Effect>, initial: Surface, p: Path, i: nat)
    requires i < |effects| && Execute(effects, initial).Some? && Shaped(effects) && p in initial && initial[p].Absent?
    requires FirstOf(effects, Touches, p) == Some(i)
    ensures p in After(effects, initial, i + 1) && !After(effects, initial, i + 1)[p].Absent?
  {
    Untouched(effects, initial, p, i);
    AfterStep(effects, initial, i);
    KeysStay(effects, initial, i);
    var e := effects[i];
    var occs := Occurrences(e);
    assert Plays(e, Touches, p);
    assert occs[0] in occs && (e.Move? ==> occs[1] in occs);
  }

  /** An entry on disk lies inside directories. */
  lemma AncestorOnDisk(world: World, q: Path, k: nat, j: nat)
    requires Grounded(world) && 0 < j < k <= |q|
    ensures q[..k] in world ==> q[..j] in world && world[q[..j]].DirectoryKind?
  {
    assert q[..k][..j] == q[..j];
  }

  /** What lies past the frontier is not a directory on disk. */
  lemma PastFrontier(world: World, q: Path, k: nat)
    requires Grounded(world) && q != [] && Blocked(world, q) && Depth(world, q, 0) < k < |q|
    ensures q[..k] in world ==> !world[q[..k]].DirectoryKind?
  {
    var d := Depth(world, q, 0);
    if k > d + 1 {
      AncestorOnDisk(world, q, k, d + 1);
    }
  }

  lemma BlockedIsAbsent(effects: seq<Effect>, initial: Surface, final: Surface, world: World, q: Path)
    requires Described(effects, initial, final, world) && q in initial && Blocked(world, q)
    ensures initial[q].Absent?
  {
    AncestorOnDisk(world, q, |q|, Depth(world, q, 0) + 1);
    assert q[..|q|] == q;
  }

  /** A declared path that is a directory after some effects, and was none on disk, was created by one of them. */
  lemma DirectoryIsCreatedBefore(effects: seq<Effect>, initial: Surface, final: Surface, world: World, a: Path, q: Path, i: nat)
    requires Described(effects, initial, final, world) && i < |effects| && q in Paths(effects[i]) && a != q
    requires IsDirectory(world, After(effects, initial, i + 1), a) && (a in world ==> !world[a].DirectoryKind?)
    ensures a in initial && CreatedBefore(effects, a, Some(i))
  {
    KeysStay(effects, initial, i + 1);
    StartsNonDirectory(effects, initial, a);
    var made := DirectoryWasCreated(effects, initial, a, i + 1);
    CreatedByThen(effects, a, made, q, i);
  }

  lemma CreatedByThen(effects: seq<Effect>, a: Path, made: nat, q: Path, i: nat)
    requires made <= i < |effects| && effects[made].CreateDirectory? && effects[made].path == a
    requires q in Paths(effects[i]) && q != a
    ensures CreatedBefore(effects, a, Some(i))
  {
    assert Plays(effects[made], Creates, a);
  }

  /** A component past the frontier must have been created, because the path is once present below it. */
  lemma ComponentIsCreated(effects: seq<Effect>, initial: Surface, final: Surface, world: World, q: Path, i: nat, k: nat)
    requires Described(effects, initial, final, world) && q in initial && Blocked(world, q)
    requires FirstOf(effects, Touches, q) == Some(i) && IsTree(world, After(effects, initial, i + 1))
    requires Depth(world, q, 0) < k < |q|
    ensures q[..k] in initial && CreatedBefore(effects, q[..k], Some(i))
  {
    BlockedIsAbsent(effects, initial, final, world, q);
    FirstTouchMakes(effects, initial, q, i);
    PastFrontier(world, q, k);
    assert Present(world, After(effects, initial, i + 1), q);
    assert Plays(effects[i], Touches, q);
    DirectoryIsCreatedBefore(effects, initial, final, world, q[..k], q, i);
  }

  /** A blocking entry was removed before its directory was created. */
  lemma BlockerIsConverted(effects: seq<Effect>, initial: Surface, final: Surface, world: World, a: Path, c: nat)
    requires Described(effects, initial, final, world) && a in initial && a in world && !world[a].DirectoryKind?
    requires FirstOf(effects, Creates, a) == Some(c)
    ensures world[a] in {RegularKind, SymlinkKind} && Converted(effects, a)
  {
    AfterStep(effects, initial, c);
    KeysStay(effects, initial, c);
    assert Occurrences(effects[c])[0] in Occurrences(effects[c]);
    var r := GoneWasRemoved(effects, initial, a, c);
    assert FirstOf(effects, Removes, a).Some?;
  }

  lemma TreesAreLegal(effects: seq<Effect>, initial: Surface, final: Surface, world: World, q: Path)
    requires Described(effects, initial, final, world) && q in initial
    requires forall n :: 0 <= n <= |effects| ==> IsTree(world, After(effects, initial, n))
    ensures LegalPath(effects, world, q)
  {
    TouchedByEffect(effects, q);
    if Blocked(world, q) {
      var i, d := FirstOf(effects, Touches, q).value, Depth(world, q, 0);
      forall k | d < k < |q| ensures CreatedBefore(effects, q[..k], Some(i)) {
        ComponentIsCreated(effects, initial, final, world, q, i, k);
      }
      if Frontier(world, q).Some? {
        ComponentIsCreated(effects, initial, final, world, q, i, d + 1);
        BlockerIsConverted(effects, initial, final, world, q[..d + 1], FirstOf(effects, Creates, q[..d + 1]).value);
      }
    }
  }

  /** On a disk in the declared state, the judgment accepts a specification if and only if every state the
      effects pass through is a tree.  */
  lemma JudgmentIsExact(effects: seq<Effect>, initial: Surface, final: Surface, world: World)
    requires Described(effects, initial, final, world)
    ensures AncestorsLegal(effects, initial.Keys, world)
      <==> forall n :: 0 <= n <= |effects| ==> IsTree(world, After(effects, initial, n))
  {
    if AncestorsLegal(effects, initial.Keys, world) {
      forall n | 0 <= n <= |effects| ensures IsTree(world, After(effects, initial, n)) {
        EveryStateIsATree(effects, initial, final, world, n);
      }
    } else if forall n :: 0 <= n <= |effects| ==> IsTree(world, After(effects, initial, n)) {
      forall q | q in initial ensures LegalPath(effects, world, q) {
        TreesAreLegal(effects, initial, final, world, q);
      }
    }
  }

  // ---- why the judgment is needed ----

  const SOME_FILE := FileState("h", 1, 256)
  const OUTER: Path := ["a"]
  const INNER: Path := ["a", "x"]
  const MAKE := CreateFile(INNER, SOME_FILE)
  const DROP := DeletePath(INNER, SOME_FILE)
  const BLOCK := CreateFile(OUTER, SOME_FILE)
  const BEFORE: Surface := map[INNER := Absent, OUTER := Absent]
  const BETWEEN: Surface := map[INNER := SOME_FILE, OUTER := Absent]
  const AFTERWARDS: Surface := map[INNER := Absent, OUTER := SOME_FILE]

  lemma ExampleExecutes()
    ensures Realizes([MAKE, DROP, BLOCK], BEFORE, AFTERWARDS)
    ensures Execute([MAKE], BEFORE) == Some(BETWEEN)
  {
    assert [MAKE, DROP, BLOCK][1..] == [DROP, BLOCK] && [DROP, BLOCK][1..] == [BLOCK];
    assert [BLOCK][1..] == [] && [MAKE][1..] == [];
    assert Enabled(MAKE, BEFORE) && Perform(MAKE, BEFORE) == BETWEEN;
    assert Enabled(DROP, BETWEEN) && Perform(DROP, BETWEEN) == BEFORE;
    assert Enabled(BLOCK, BEFORE) && Perform(BLOCK, BEFORE) == AFTERWARDS;
    assert Execute([BLOCK], BEFORE) == Some(AFTERWARDS);
    assert Execute([DROP, BLOCK], BETWEEN) == Some(AFTERWARDS);
    assert Touched([BLOCK]) == {OUTER} && Touched([DROP, BLOCK]) == {INNER, OUTER};
  }

  lemma BetweenIsNoTree()
    ensures !IsTree(map[], BETWEEN)
  {
    assert INNER[..1] == OUTER;
    assert !IsDirectory(map[], BETWEEN, INNER[..1]);
    assert Present(map[], BETWEEN, INNER) && !AncestorsAreDirectories(map[], BETWEEN, INNER);
  }

  /** The compiler's own rules see only the endpoints: a file made and removed under a path that is never a
      directory passes all of them, and the state in between is no tree.  */
  lemma EndpointsAreNotEnough()
    ensures exists effects, initial, final, n: nat ::
      && Shaped(effects) && Realizes(effects, initial, final) && n <= |effects|
      && TreeRule(initial) && TreeRule(final) && OrderRule(effects)
      && MatchesDisk(initial, map[])
      && !IsTree(map[], After(effects, initial, n))
  {
    var effects := [MAKE, DROP, BLOCK];
    ExampleExecutes();
    BetweenIsNoTree();
    assert effects[..1] == [MAKE];
    assert After(effects, BEFORE, 1) == BETWEEN;
    assert OrderRule(effects);
  }

  // ---- what the compiler's surface rules stand for ----

  /** The directories needed above what a surface declares present, and not declared themselves. */
  function Scaffold(s: Surface): World {
    map p | p in (set q, k | q in s && !s[q].Absent? && 0 < k < |q| :: q[..k]) && p !in s :: DirectoryKind
  }

  /** Phase 12 accepts exactly the surfaces that some disk can hold. */
  lemma SurfaceRuleIsPlaceable(s: Surface)
    requires [] !in s
    ensures TreeRule(s) <==> exists world :: IsTree(world, s)
  {
    if TreeRule(s) {
      var world := Scaffold(s);
      forall p | Present(world, s, p) ensures AncestorsAreDirectories(world, s, p) {
        ScaffoldHolds(s, p);
      }
      assert IsTree(world, s);
    }
    if exists world :: IsTree(world, s) {
      var world :| IsTree(world, s);
      forall p, q | p in s && q in s && Above(p, q) && !s[q].Absent? ensures s[p].DirectoryState? {
        assert p != [] && Present(world, s, q);
        assert IsDirectory(world, s, q[..|p|]);
      }
    }
  }

  lemma ScaffoldHolds(s: Surface, p: Path)
    requires TreeRule(s) && [] !in s && Present(Scaffold(s), s, p)
    ensures AncestorsAreDirectories(Scaffold(s), s, p)
  {
    var world := Scaffold(s);
    forall k | 0 < k < |p| ensures IsDirectory(world, s, p[..k]) {
      var q: Path, m: nat := p, |p|;
      if p !in s {
        q, m :| q in s && !s[q].Absent? && 0 < m < |q| && q[..m] == p;
      }
      assert q[..k] == p[..k];
      if p[..k] in s {
        assert Above(p[..k], q);
      }
    }
  }

  /** What an effect names is present right before it or right after it. */
  lemma TouchedIsPresent(e: Effect, s: Surface, q: Path)
    requires Enabled(e, s) && WellShaped(e) && q in Paths(e)
    ensures q in s && (!s[q].Absent? || !Perform(e, s)[q].Absent?)
  {
    var occs := Occurrences(e);
    OneOrTwo(occs[0], occs[|occs| - 1]);
    assert occs[0] in occs && occs[|occs| - 1] in occs;
  }

  /** Before it is created a directory is none, and right before its creation it is absent. */
  lemma {:induction false} NotYetDirectory(effects: seq<Effect>, initial: Surface, j: nat, n: nat)
    requires Shaped(effects) && Execute(effects, initial).Some? && n <= j < |effects| && effects[j].CreateDirectory?
    ensures effects[j].path in After(effects, initial, n) && !After(effects, initial, n)[effects[j].path].DirectoryState?
    decreases j - n
  {
    var p := effects[j].path;
    KeysStay(effects, initial, n);
    KeysStay(effects, initial, j);
    AfterStep(effects, initial, j);
    TouchedIsPresent(effects[j], After(effects, initial, j), p);
    PerformKeeps(effects[j], After(effects, initial, j));
    if n < j {
      NotYetDirectory(effects, initial, j, n + 1);
      AfterStep(effects, initial, n);
      PerformKeeps(effects[n], After(effects, initial, n));
    }
  }

  /** In a tree, what is below a directory is present only after the directory's creation. */
  lemma PresentAfterCreation(effects: seq<Effect>, initial: Surface, world: World, j: nat, n: nat, q: Path)
    requires Shaped(effects) && Execute(effects, initial).Some? && n <= |effects| && IsTree(world, After(effects, initial, n))
    requires q in After(effects, initial, n) && !After(effects, initial, n)[q].Absent?
    requires j < |effects| && effects[j].CreateDirectory? && effects[j].path != [] && effects[j].path < q
    ensures j < n
  {
    var p := effects[j].path;
    assert p == q[..|p|] && Present(world, After(effects, initial, n), q);
    assert IsDirectory(world, After(effects, initial, n), q[..|p|]);
    if n <= j {
      NotYetDirectory(effects, initial, j, n);
    }
  }

  lemma NamedAfterCreation(effects: seq<Effect>, initial: Surface, world: World, i: nat, j: nat, q: Path)
    requires Shaped(effects) && Execute(effects, initial).Some? && i < |effects|
    requires IsTree(world, After(effects, initial, i)) && IsTree(world, After(effects, initial, i + 1))
    requires j < |effects| && effects[j].CreateDirectory? && effects[j].path != [] && effects[j].path < q && q in Paths(effects[i])
    ensures j < i
  {
    AfterStep(effects, initial, i);
    TouchedIsPresent(effects[i], After(effects, initial, i), q);
    PerformKeeps(effects[i], After(effects, initial, i));
    PresentAfterCreation(effects, initial, world, j, if !After(effects, initial, i)[q].Absent? then i else i + 1, q);
  }

  /** Phase 13 refuses no run through trees: where every state passed is a tree, each directory is created
      before anything below it is named.  */
  lemma TreeRunsAreOrdered(effects: seq<Effect>, initial: Surface, world: World)
    requires Shaped(effects) && Execute(effects, initial).Some?
    requires forall n :: 0 <= n <= |effects| ==> IsTree(world, After(effects, initial, n))
    ensures OrderRule(effects)
  {
    OrderIsPairwise(effects);
    forall i, j, q | 0 <= i < |effects| && 0 <= j < |effects| && q in Paths(effects[i])
      ensures effects[j].CreateDirectory? && effects[j].path != [] && effects[j].path < q ==> j < i
    {
      if effects[j].CreateDirectory? && effects[j].path != [] && effects[j].path < q {
        NamedAfterCreation(effects, initial, world, i, j, q);
      }
    }
  }
}
