/** The ancestor judgment, and the tree consistency of every intermediate state it buys.

    Lookup is by exact bytes, so a directory node is its path.  The root is the empty path.  */
module Judgment {
  import opened ChainModel
  import opened Effects
  import opened SurfaceTree

  datatype EntryKind = DirectoryKind | RegularKind | SymlinkKind | OtherKind

  /** Every existing entry below the project root. */
  type World = map<Path, EntryKind>

  // ---- resolution ----

  /** The number of leading ancestor components that are directories on disk. */
  function Depth(world: World, path: Path, from: nat): (d: nat)
    requires from < |path|
    ensures from <= d < |path|
    ensures forall k :: from < k <= d ==> path[..k] in world && world[path[..k]].DirectoryKind?
    ensures d < |path| - 1 ==> !(path[..d + 1] in world && world[path[..d + 1]].DirectoryKind?)
    decreases |path| - from
  {
    if from + 1 < |path| && path[..from + 1] in world && world[path[..from + 1]].DirectoryKind?
    then Depth(world, path, from + 1)
    else from
  }

  /** Resolution stopped above the leaf. */
  predicate Blocked(world: World, path: Path)
    requires path != []
  {
    Depth(world, path, 0) < |path| - 1
  }

  function Frontier(world: World, path: Path): Option<EntryKind>
    requires path != [] && Blocked(world, path)
  {
    var blocking := path[..Depth(world, path, 0) + 1];
    if blocking in world then Some(world[blocking]) else None
  }

  // ---- what each effect does to a path ----

  datatype Role = Touches | Creates | Removes

  predicate Plays(e: Effect, role: Role, p: Path) {
    match role
    case Touches => p in Paths(e)
    case Creates => e.CreateDirectory? && e.path == p
    case Removes => (e.DeletePath? && e.path == p) || (e.Move? && e.source == p)
  }

  /** The first of the first `n` effects that plays a role for `p`. */
  function First(effects: seq<Effect>, role: Role, p: Path, n: nat): (i: Option<nat>)
    requires n <= |effects|
    ensures i.Some? ==> i.value < n && Plays(effects[i.value], role, p)
    ensures i.Some? ==> forall k :: 0 <= k < i.value ==> !Plays(effects[k], role, p)
    ensures i.None? ==> forall k :: 0 <= k < n ==> !Plays(effects[k], role, p)
  {
    if n == 0 then None
    else if First(effects, role, p, n - 1).Some? then First(effects, role, p, n - 1)
    else if Plays(effects[n - 1], role, p) then Some(n - 1)
    else None
  }

  function FirstOf(effects: seq<Effect>, role: Role, p: Path): Option<nat> {
    First(effects, role, p, |effects|)
  }

  /** `p` is created as a directory before effect `before`. */
  predicate CreatedBefore(effects: seq<Effect>, p: Path, before: Option<nat>) {
    before.Some? && FirstOf(effects, Creates, p).Some? && FirstOf(effects, Creates, p).value < before.value
  }

  /** A blocking file or symlink is removed, and a directory created in its place afterwards. */
  predicate Converted(effects: seq<Effect>, p: Path) {
    && FirstOf(effects, Removes, p).Some? && FirstOf(effects, Creates, p).Some?
    && FirstOf(effects, Removes, p).value < FirstOf(effects, Creates, p).value
  }

  predicate LegalPath(effects: seq<Effect>, world: World, path: Path)
    requires path != []
  {
    Blocked(world, path) ==>
      var d := Depth(world, path, 0);
      && (forall k :: d < k < |path| ==> CreatedBefore(effects, path[..k], FirstOf(effects, Touches, path)))
      && (Frontier(world, path).Some? ==>
            && Frontier(world, path).value in {RegularKind, SymlinkKind}
            && Converted(effects, path[..d + 1]))
  }

  predicate Rooted(declared: set<Path>) {
    forall p :: p in declared ==> p != []
  }

  /** Every component past the frontier is a directory this transaction creates first. */
  predicate AncestorsLegal(effects: seq<Effect>, declared: set<Path>, world: World)
    requires Rooted(declared)
  {
    forall p :: p in declared ==> LegalPath(effects, world, p)
  }

  /** Every component to be created has a name its parent can hold.  `tooLong` are the places whose last
      component is over its parent's limit.  */
  predicate NamesFit(world: World, path: Path, tooLong: set<Path>)
    requires path != []
  {
    Blocked(world, path) ==> forall k :: Depth(world, path, 0) < k < |path| ==> path[..k] !in tooLong
  }

  // ---- the loops ----

  function Get(m: map<Path, nat>, p: Path): Option<nat> {
    if p in m then Some(m[p]) else None
  }

  ghost predicate FirstMap(effects: seq<Effect>, role: Role, n: nat, first: map<Path, nat>)
    requires n <= |effects|
  {
    forall p :: Get(first, p) == First(effects, role, p, n)
  }

  function SetDefault(m: map<Path, nat>, p: Path, i: nat): map<Path, nat> {
    if p in m then m else m[p := i]
  }

  lemma FirstMapStep(effects: seq<Effect>, role: Role, i: nat, m: map<Path, nat>, m': map<Path, nat>)
    requires i < |effects| && FirstMap(effects, role, i, m)
    requires forall p :: Get(m', p) == if Get(m, p).None? && Plays(effects[i], role, p) then Some(i) else Get(m, p)
    ensures FirstMap(effects, role, i + 1, m')
  {
    forall p ensures Get(m', p) == First(effects, role, p, i + 1) {
      assert Get(m, p) == First(effects, role, p, i);
    }
  }

  method FirstTouches(effects: seq<Effect>) returns (touched: map<Path, nat>)
    ensures FirstMap(effects, Touches, |effects|, touched)
  {
    touched := map[];
    for i := 0 to |effects|
      invariant FirstMap(effects, Touches, i, touched)
    {
      var e := effects[i];
      ghost var before := touched;
      if e.Move? {
        touched := SetDefault(SetDefault(touched, e.source, i), e.destination, i);
      } else {
        touched := SetDefault(touched, e.path, i);
      }
      FirstMapStep(effects, Touches, i, before, touched);
    }
  }

  method FirstCreatorsAndRemovers(effects: seq<Effect>) returns (creators: map<Path, nat>, removers: map<Path, nat>)
    ensures FirstMap(effects, Creates, |effects|, creators)
    ensures FirstMap(effects, Removes, |effects|, removers)
  {
    creators, removers := map[], map[];
    for i := 0 to |effects|
      invariant FirstMap(effects, Creates, i, creators)
      invariant FirstMap(effects, Removes, i, removers)
    {
      ghost var before, gone := creators, removers;
      match effects[i] {
        case CreateDirectory(path, _) => creators := SetDefault(creators, path, i);
        case DeletePath(path, _) => removers := SetDefault(removers, path, i);
        case Move(source, _, _) => removers := SetDefault(removers, source, i);
        case _ =>
      }
      FirstMapStep(effects, Creates, i, before, creators);
      FirstMapStep(effects, Removes, i, gone, removers);
    }
  }

  /** The loop over the components past the frontier. */
  method AncestorsCreated(path: Path, depth: nat, creators: map<Path, nat>, touched: nat, tooLong: set<Path>, ghost effects: seq<Effect>)
    returns (ok: bool)
    requires depth < |path| && FirstMap(effects, Creates, |effects|, creators)
    ensures ok <==> forall k :: depth < k < |path| ==> path[..k] !in tooLong && CreatedBefore(effects, path[..k], Some(touched))
  {
    for index := depth to |path| - 1
      invariant forall k :: depth < k <= index ==> path[..k] !in tooLong && CreatedBefore(effects, path[..k], Some(touched))
    {
      if path[..index + 1] in tooLong {
        return false;
      }
      var creator := Get(creators, path[..index + 1]);
      if creator.None? || creator.value >= touched {
        assert !CreatedBefore(effects, path[..index + 1], Some(touched));
        return false;
      }
    }
    return true;
  }

  method PathLegal(path: Path, world: World, creators: map<Path, nat>, removers: map<Path, nat>,
                   touched: nat, tooLong: set<Path>, ghost effects: seq<Effect>) returns (ok: bool)
    requires path != [] && FirstOf(effects, Touches, path) == Some(touched)
    requires FirstMap(effects, Creates, |effects|, creators)
    requires FirstMap(effects, Removes, |effects|, removers)
    ensures ok <==> LegalPath(effects, world, path) && NamesFit(world, path, tooLong)
  {
    var depth := Depth(world, path, 0);
    if depth == |path| - 1 {
      return true;
    }
    var blocking := path[..depth + 1];
    if blocking in world && world[blocking] !in {RegularKind, SymlinkKind} {
      return false;
    }
    ok := AncestorsCreated(path, depth, creators, touched, tooLong, effects);
    if ok && blocking in world {
      assert CreatedBefore(effects, blocking, Some(touched));
      var remover := Get(removers, blocking);
      ok := remover.Some? && remover.value < creators[blocking];
    }
  }

  /** `require_ancestors_legal` accepts exactly when every declared path is legal and every component it
      needs created has a name that fits.  */
  method RequireAncestorsLegal(effects: seq<Effect>, declared: set<Path>, world: World, tooLong: set<Path>) returns (ok: bool)
    requires Rooted(declared) && declared == Touched(effects)
    ensures ok <==> AncestorsLegal(effects, declared, world) && forall p :: p in declared ==> NamesFit(world, p, tooLong)
  {
    var creators, removers := FirstCreatorsAndRemovers(effects);
    var touched := FirstTouches(effects);
    var todo := declared;
    while todo != {}
      invariant todo <= declared
      invariant forall p :: p in declared && p !in todo ==> LegalPath(effects, world, p) && NamesFit(world, p, tooLong)
      decreases todo
    {
      var p :| p in todo;
      TouchedByEffect(effects, p);
      assert Get(touched, p) == FirstOf(effects, Touches, p);
      var fine := PathLegal(p, world, creators, removers, touched[p], tooLong, effects);
      if !fine {
        return false;
      }
      todo := todo - {p};
    }
    return true;
  }

  lemma {:induction false} TouchedByEffect(effects: seq<Effect>, p: Path)
    ensures p in Touched(effects) <==> exists i :: 0 <= i < |effects| && p in Paths(effects[i])
    ensures p in Touched(effects) <==> FirstOf(effects, Touches, p).Some?
  {
    if effects != [] {
      var rest := effects[1..];
      TouchedByEffect(rest, p);
      assert forall i :: 0 <= i < |rest| ==> rest[i] == effects[i + 1];
      if exists i :: 0 <= i < |effects| && p in Paths(effects[i]) {
        var i :| 0 <= i < |effects| && p in Paths(effects[i]);
        assert i > 0 ==> p in Paths(rest[i - 1]);
      }
      if FirstOf(effects, Touches, p).Some? {
        assert p in Paths(effects[FirstOf(effects, Touches, p).value]);
      }
    }
  }
}
