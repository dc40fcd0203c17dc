/** The closed effect set, its occurrences, and what executing effects means. */
module Effects {
  import opened ChainModel

  /** A path is its components. */
  type Path = seq<string>

  datatype PathState =
    | Absent
    | FileState(contentHash: string, byteLen: nat, mode: nat)
    | SymlinkState(target: string, mode: nat)
    | DirectoryState(mode: nat)

  datatype Effect =
    | ReplaceFile(path: Path, pre: PathState, post: PathState)
    | CreateFile(path: Path, post: PathState)
    | DeletePath(path: Path, pre: PathState)
    | Move(source: Path, destination: Path, pre: PathState)
    | CreateDirectory(path: Path, post: PathState)

  datatype Occurrence = Occurrence(path: Path, pre: PathState, post: PathState)

  type Surface = map<Path, PathState>

  function Occurrences(e: Effect): seq<Occurrence> {
    match e
    case ReplaceFile(path, pre, post) => [Occurrence(path, pre, post)]
    case CreateFile(path, post) => [Occurrence(path, Absent, post)]
    case DeletePath(path, pre) => [Occurrence(path, pre, Absent)]
    case Move(source, destination, pre) => [Occurrence(source, pre, Absent), Occurrence(destination, Absent, pre)]
    case CreateDirectory(path, post) => [Occurrence(path, Absent, post)]
  }

  /** Phase 5: which states each variant may hold, and distinct move endpoints. */
  predicate WellShaped(e: Effect) {
    match e
    case ReplaceFile(_, pre, post) => pre.FileState? && post.FileState?
    case CreateFile(_, post) => post.FileState?
    case DeletePath(_, pre) => pre.FileState? || pre.SymlinkState?
    case Move(source, destination, pre) => pre.FileState? && source != destination
    case CreateDirectory(_, post) => post.DirectoryState?
  }

  predicate MovesApart(effects: seq<Effect>) {
    forall i :: 0 <= i < |effects| && effects[i].Move? ==> effects[i].source != effects[i].destination
  }

  /** The paths an effect touches. */
  function Paths(e: Effect): set<Path> {
    if e.Move? then {e.source, e.destination} else {e.path}
  }

  function Touched(effects: seq<Effect>): set<Path> {
    if effects == [] then {} else Paths(effects[0]) + Touched(effects[1..])
  }

  // ---- execution on the whole surface ----

  /** Every precondition of the effect holds on `s`. */
  predicate Enabled(e: Effect, s: Surface) {
    forall o :: o in Occurrences(e) ==> o.path in s && s[o.path] == o.pre
  }

  /** All of the effect's paths move at once. */
  function Perform(e: Effect, s: Surface): Surface {
    if e.Move? then s[e.source := Absent][e.destination := e.pre]
    else s[e.path := Occurrences(e)[0].post]
  }

  /** Run the effects in order, or fail at the first one whose precondition does not hold. */
  function Execute(effects: seq<Effect>, s: Surface): Option<Surface> {
    if effects == [] then Some(s)
    else if Enabled(effects[0], s) then Execute(effects[1..], Perform(effects[0], s))
    else None
  }

  /** The whole-run meaning of a specification: from the initial surface every effect finds its
      precondition at its turn, the run ends exactly at the final surface, and the surfaces declare
      exactly the touched paths.  */
  predicate Realizes(effects: seq<Effect>, initial: Surface, final: Surface) {
    && initial.Keys == Touched(effects)
    && Execute(effects, initial) == Some(final)
  }

  // ---- what the five effects do ----

  lemma OneOrTwo(a: Occurrence, b: Occurrence)
    ensures forall o :: o in [a] <==> o == a
    ensures forall o :: o in [a, b] <==> o == a || o == b
  {
  }

  /** An effect on `s`, variant by variant: when it may run, and the surface it leaves. */
  lemma OneEffect(e: Effect, s: Surface)
    ensures e.ReplaceFile? ==> Execute([e], s) == if e.path in s && s[e.path] == e.pre then Some(s[e.path := e.post]) else None
    ensures e.CreateFile? || e.CreateDirectory? ==>
      Execute([e], s) == if e.path in s && s[e.path] == Absent then Some(s[e.path := e.post]) else None
    ensures e.DeletePath? ==> Execute([e], s) == if e.path in s && s[e.path] == e.pre then Some(s[e.path := Absent]) else None
    ensures e.Move? ==>
      Execute([e], s) == (if e.source in s && s[e.source] == e.pre && e.destination in s && s[e.destination] == Absent
                          then Some(s[e.source := Absent][e.destination := e.pre]) else None)
  {
    assert [e][0] == e && [e][1..] == [];
    var occs := Occurrences(e);
    OneOrTwo(occs[0], occs[|occs| - 1]);
    assert forall o :: o in occs <==> o == occs[0] || o == occs[|occs| - 1];
    if Enabled(e, s) {
      assert Execute([], Perform(e, s)) == Some(Perform(e, s));
    }
  }

  /** A run is its effects one after the other. */
  lemma {:induction false} RunIsStepwise(effects: seq<Effect>, s: Surface, n: nat)
    requires n < |effects|
    ensures Execute(effects[..n + 1], s) ==
      if Execute(effects[..n], s).Some? then Execute([effects[n]], Execute(effects[..n], s).value) else None
    ensures Execute(effects, s).Some? ==> Execute(effects[..n + 1], s).Some?
  {
    var e := effects[0];
    assert effects[..n + 1][0] == e;
    if n == 0 {
      assert effects[..1] == [e] && effects[..0] == [];
      assert [e][1..] == [];
    } else {
      assert effects[..n][0] == e;
      assert effects[..n + 1][1..] == effects[1..][..n] && effects[..n][1..] == effects[1..][..n - 1];
      if Enabled(e, s) {
        RunIsStepwise(effects[1..], Perform(e, s), n - 1);
      }
    }
  }

  /** The touched paths are those the effects name. */
  lemma {:induction false} TouchedAreNamed(effects: seq<Effect>, p: Path)
    ensures p in Touched(effects) <==>
      exists i :: 0 <= i < |effects| &&
        if effects[i].Move? then p == effects[i].source || p == effects[i].destination else p == effects[i].path
  {
    if effects != [] {
      var rest := effects[1..];
      TouchedAreNamed(rest, p);
      forall i ensures 0 <= i < |rest| ==> rest[i] == effects[i + 1] {}
      forall i ensures 0 < i < |effects| ==> effects[i] == rest[i - 1] {}
    }
  }
}
