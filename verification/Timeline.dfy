/** Per-path timelines, and why checking them path by path decides the global execution. */
module Timeline {
  import opened ChainModel
  import opened Effects

  /** All occurrences in effect order. */
  function Flatten(effects: seq<Effect>): seq<Occurrence> {
    if effects == [] then [] else Occurrences(effects[0]) + Flatten(effects[1..])
  }

  /** The occurrences of one path, in order. */
  function At(occs: seq<Occurrence>, p: Path): seq<Occurrence> {
    if occs == [] then []
    else if occs[0].path == p then [occs[0]] + At(occs[1..], p)
    else At(occs[1..], p)
  }

  predicate Continuous(line: seq<Occurrence>) {
    forall i, j :: 0 <= i && j == i + 1 < |line| ==> line[i].post == line[j].pre
  }

  ghost predicate Timelines(effects: seq<Effect>, lines: map<Path, seq<Occurrence>>) {
    && lines.Keys == Touched(effects)
    && forall p :: p in lines ==> lines[p] != [] && lines[p] == At(Flatten(effects), p)
  }

  // ---- one path at a time ----

  /** Follow path `p` alone: fail at the first occurrence that does not find its precondition. */
  function Follow(occs: seq<Occurrence>, p: Path, s: PathState): Option<PathState> {
    if occs == [] then Some(s)
    else if occs[0].path != p then Follow(occs[1..], p, s)
    else if occs[0].pre == s then Follow(occs[1..], p, occs[0].post)
    else None
  }

  /** What a timeline makes of the state its path starts in. */
  function PathOutcome(line: seq<Occurrence>, s: PathState): Option<PathState> {
    if line == [] then Some(s)
    else if line[0].pre == s && Continuous(line) then Some(line[|line| - 1].post)
    else None
  }

  lemma ContinuousCons(o: Occurrence, rest: seq<Occurrence>)
    ensures Continuous([o] + rest) <==> Continuous(rest) && (rest != [] ==> o.post == rest[0].pre)
  {
    var line := [o] + rest;
    if Continuous(line) {
      forall i, j | 0 <= i && j == i + 1 < |rest| ensures rest[i].post == rest[j].pre {
        assert line[i + 1].post == line[j + 1].pre;
      }
      if rest != [] {
        assert line[0].post == line[1].pre;
      }
    } else {
      var i, j :| 0 <= i && j == i + 1 < |line| && line[i].post != line[j].pre;
      if i > 0 {
        assert rest[i - 1].post != rest[j - 1].pre;
      }
    }
  }

  lemma {:induction false} FollowIsTimeline(occs: seq<Occurrence>, p: Path, s: PathState)
    ensures Follow(occs, p, s) == PathOutcome(At(occs, p), s)
  {
    if occs != [] {
      FollowIsTimeline(occs[1..], p, if occs[0].path == p then occs[0].post else s);
      ContinuousCons(occs[0], At(occs[1..], p));
    }
  }

  lemma {:induction false} FollowConcat(a: seq<Occurrence>, b: seq<Occurrence>, p: Path, s: PathState)
    ensures Follow(a + b, p, s) == if Follow(a, p, s).Some? then Follow(b, p, Follow(a, p, s).value) else None
  {
    if a == [] {
      assert a + b == b;
    } else {
      assert (a + b)[1..] == a[1..] + b;
      FollowConcat(a[1..], b, p, if a[0].path == p then a[0].post else s);
    }
  }

  /** The one- and two-occurrence effects, unfolded. */
  lemma ShortLists(a: Occurrence, b: Occurrence, p: Path, s: PathState)
    ensures At([a], p) == if a.path == p then [a] else []
    ensures At([a, b], p) == (if a.path == p then [a] else []) + (if b.path == p then [b] else [])
    ensures Follow([a], p, s) == if a.path != p then Some(s) else if a.pre == s then Some(a.post) else None
    ensures a.path != b.path ==>
      Follow([a, b], p, s) == (if a.path == p then (if a.pre == s then Some(a.post) else None)
                               else if b.path == p then (if b.pre == s then Some(b.post) else None)
                               else Some(s))
  {
    assert [a, b][1..] == [b] && [a][1..] == [] && [b][1..] == [];
    assert At([b], p) == if b.path == p then [b] else [];
    assert forall x :: Follow([b], p, x) == if b.path != p then Some(x) else if b.pre == x then Some(b.post) else None;
  }

  /** One effect, followed path by path, is the effect performed at once. */
  lemma EffectIsPathwise(e: Effect, s: Surface)
    requires Paths(e) <= s.Keys && (e.Move? ==> e.source != e.destination)
    ensures Enabled(e, s) <==> forall p :: p in s ==> Follow(Occurrences(e), p, s[p]).Some?
    ensures Enabled(e, s) ==> forall p :: p in s ==> Follow(Occurrences(e), p, s[p]) == Some(Perform(e, s)[p])
  {
    var occs := Occurrences(e);
    var second := if e.Move? then occs[1] else occs[0];
    assert occs == [occs[0]] || occs == [occs[0], second];
    assert occs[0] in occs && second in occs;
    forall p | p in s
      ensures Follow(occs, p, s[p]).Some? <==> forall o :: o in occs && o.path == p ==> s[p] == o.pre
      ensures Follow(occs, p, s[p]).Some? ==> Follow(occs, p, s[p]) == Some(Perform(e, s)[p])
    {
      ShortLists(occs[0], second, p, s[p]);
    }
    if forall p :: p in s ==> Follow(occs, p, s[p]).Some? {
      forall o | o in occs ensures o.path in s && s[o.path] == o.pre {
        assert o.path in Paths(e);
        assert Follow(occs, o.path, s[o.path]).Some?;
      }
    }
  }

  /** Executing the effects in order is following every path on its own. */
  lemma {:induction false} ExecutionIsPathwise(effects: seq<Effect>, s: Surface)
    requires Touched(effects) <= s.Keys && MovesApart(effects)
    ensures Execute(effects, s).Some? <==> forall p :: p in s ==> Follow(Flatten(effects), p, s[p]).Some?
    ensures Execute(effects, s).Some? ==>
      && Execute(effects, s).value.Keys == s.Keys
      && forall p :: p in s ==> Follow(Flatten(effects), p, s[p]) == Some(Execute(effects, s).value[p])
  {
    if effects != [] {
      var e, rest := effects[0], effects[1..];
      EffectIsPathwise(e, s);
      forall p | p in s {
        FollowConcat(Occurrences(e), Flatten(rest), p, s[p]);
      }
      if Enabled(e, s) {
        assert Perform(e, s).Keys == s.Keys;
        assert forall i :: 0 <= i < |rest| ==> rest[i] == effects[i + 1];
        ExecutionIsPathwise(rest, Perform(e, s));
      }
    }
  }

  lemma PathsAreOccurring(e: Effect, p: Path)
    ensures p in Paths(e) <==> At(Occurrences(e), p) != []
    ensures (set o | o in Occurrences(e) :: o.path) == Paths(e)
  {
    var occs := Occurrences(e);
    var second := if e.Move? then occs[1] else occs[0];
    assert occs == [occs[0]] || occs == [occs[0], second];
    assert occs[0] in occs && second in occs;
    ShortLists(occs[0], second, p, Absent);
  }

  lemma {:induction false} TouchedIsOccurring(effects: seq<Effect>, p: Path)
    ensures p in Touched(effects) <==> At(Flatten(effects), p) != []
  {
    if effects != [] {
      TouchedIsOccurring(effects[1..], p);
      AtConcat(Occurrences(effects[0]), Flatten(effects[1..]), p);
      PathsAreOccurring(effects[0], p);
    }
  }

  lemma {:induction false} AtConcat(a: seq<Occurrence>, b: seq<Occurrence>, p: Path)
    ensures At(a + b, p) == At(a, p) + At(b, p)
  {
    if a == [] {
      assert a + b == b;
    } else {
      assert (a + b)[1..] == a[1..] + b;
      AtConcat(a[1..], b, p);
    }
  }

  // ---- the compiler's local checks ----

  ghost predicate LocalChecks(effects: seq<Effect>, initial: Surface, final: Surface) {
    && (forall p :: p in Touched(effects) ==> Continuous(At(Flatten(effects), p)))
    && initial.Keys == Touched(effects) && final.Keys == Touched(effects)
    && forall p :: p in Touched(effects) ==> EndsMatch(At(Flatten(effects), p), initial[p], final[p])
  }

  predicate EndsMatch(line: seq<Occurrence>, first: PathState, last: PathState) {
    line != [] && line[0].pre == first && line[|line| - 1].post == last
  }

  /** Continuity, coverage and endpoints, each checked on one path alone, hold exactly when the whole run
      of effects executes from the initial surface to the final one.  */
  lemma LocalChecksAreExecution(effects: seq<Effect>, initial: Surface, final: Surface)
    requires MovesApart(effects)
    ensures LocalChecks(effects, initial, final) <==> Realizes(effects, initial, final)
  {
    if initial.Keys == Touched(effects) {
      forall p | p in initial && p in final
        ensures Continuous(At(Flatten(effects), p)) && EndsMatch(At(Flatten(effects), p), initial[p], final[p])
          <==> PathOutcome(At(Flatten(effects), p), initial[p]) == Some(final[p])
      {
        TouchedIsOccurring(effects, p);
      }
      PathwiseIsExecution(effects, initial, final);
    }
  }

  lemma PathwiseIsExecution(effects: seq<Effect>, initial: Surface, final: Surface)
    requires MovesApart(effects) && Touched(effects) <= initial.Keys
    ensures Execute(effects, initial) == Some(final) <==>
      && final.Keys == initial.Keys
      && forall p :: p in initial ==> PathOutcome(At(Flatten(effects), p), initial[p]) == Some(final[p])
  {
    ExecutionIsPathwise(effects, initial);
    forall p | p in initial
      ensures Follow(Flatten(effects), p, initial[p]) == PathOutcome(At(Flatten(effects), p), initial[p])
    {
      FollowIsTimeline(Flatten(effects), p, initial[p]);
    }
    if final.Keys == initial.Keys && forall p :: p in initial ==> PathOutcome(At(Flatten(effects), p), initial[p]) == Some(final[p]) {
      assert forall p :: p in initial ==> Follow(Flatten(effects), p, initial[p]).Some?;
      assert Execute(effects, initial).value == final;
    }
  }

  /** The hypothesis is needed: a move onto itself has a continuous timeline and cannot execute. */
  lemma SelfMovePassesLocally()
    ensures exists effects, initial, final ::
      LocalChecks(effects, initial, final) && !Realizes(effects, initial, final)
  {
    var f := FileState("h", 1, 0);
    var e := Move(["a"], ["a"], f);
    var s := map[["a"] := f];
    var occs := [Occurrence(["a"], f, Absent), Occurrence(["a"], Absent, f)];
    assert occs[1..] == [Occurrence(["a"], Absent, f)] && occs[1..][1..] == [];
    assert Flatten([e]) == occs by { assert [e][1..] == []; }
    assert At(occs, ["a"]) == occs;
    assert Touched([e]) == {["a"]} by { assert [e][1..] == []; }
    assert LocalChecks([e], s, s);
    assert occs[0] in Occurrences(e) && occs[1] in Occurrences(e);
    assert !Enabled(e, s);
    assert !Realizes([e], s, s);
  }

  // ---- the compiler's loops ----

  lemma FlattenSnoc(effects: seq<Effect>, n: nat)
    requires n < |effects|
    ensures Flatten(effects[..n + 1]) == Flatten(effects[..n]) + Occurrences(effects[n])
    ensures Touched(effects[..n + 1]) == Touched(effects[..n]) + Paths(effects[n])
  {
    if n == 0 {
      assert effects[..1] == [effects[0]] && effects[..0] == [];
      assert [effects[0]][1..] == [];
    } else {
      FlattenSnoc(effects[1..], n - 1);
      assert effects[..n + 1][1..] == effects[1..][..n];
      assert effects[..n][1..] == effects[1..][..n - 1];
    }
  }

  function Line(lines: map<Path, seq<Occurrence>>, p: Path): seq<Occurrence> {
    if p in lines then lines[p] else []
  }

  /** `grouped` is `lines` with the occurrences appended, each to its own path's list. */
  ghost predicate GroupedTo(lines: map<Path, seq<Occurrence>>, grouped: map<Path, seq<Occurrence>>, occs: seq<Occurrence>) {
    && (forall p :: p in grouped ==> grouped[p] != [])
    && forall p :: Line(grouped, p) == Line(lines, p) + At(occs, p)
  }

  lemma GroupStep(lines: map<Path, seq<Occurrence>>, before: map<Path, seq<Occurrence>>, occs: seq<Occurrence>, i: nat)
    requires i < |occs| && GroupedTo(lines, before, occs[..i])
    ensures GroupedTo(lines, before[occs[i].path := Line(before, occs[i].path) + [occs[i]]], occs[..i + 1])
  {
    var o := occs[i];
    var after := before[o.path := Line(before, o.path) + [o]];
    assert occs[..i + 1] == occs[..i] + [o];
    forall q ensures Line(after, q) == Line(lines, q) + At(occs[..i + 1], q) {
      AtConcat(occs[..i], [o], q);
      assert At([o], q) == if o.path == q then [o] else [];
    }
  }

  /** `grouped.setdefault(path, []).append(...)` for the occurrences of one effect. */
  method Group(lines: map<Path, seq<Occurrence>>, occs: seq<Occurrence>) returns (grouped: map<Path, seq<Occurrence>>)
    requires forall p :: p in lines ==> lines[p] != []
    ensures GroupedTo(lines, grouped, occs)
  {
    grouped := lines;
    for i := 0 to |occs|
      invariant GroupedTo(lines, grouped, occs[..i])
    {
      GroupStep(lines, grouped, occs, i);
      grouped := grouped[occs[i].path := Line(grouped, occs[i].path) + [occs[i]]];
    }
    assert occs[..|occs|] == occs;
  }

  lemma GroupOneMore(lines: map<Path, seq<Occurrence>>, grouped: map<Path, seq<Occurrence>>, effects: seq<Effect>, i: nat)
    requires i < |effects| && GroupedTo(map[], lines, Flatten(effects[..i])) && GroupedTo(lines, grouped, Occurrences(effects[i]))
    ensures GroupedTo(map[], grouped, Flatten(effects[..i + 1]))
  {
    FlattenSnoc(effects, i);
    forall p ensures Line(grouped, p) == At(Flatten(effects[..i + 1]), p) {
      AtConcat(Flatten(effects[..i]), Occurrences(effects[i]), p);
    }
  }

  method GroupAll(effects: seq<Effect>) returns (lines: map<Path, seq<Occurrence>>)
    ensures lines.Keys == Touched(effects)
    ensures forall p :: Line(lines, p) == At(Flatten(effects), p)
  {
    lines := map[];
    for i := 0 to |effects|
      invariant GroupedTo(map[], lines, Flatten(effects[..i]))
    {
      ghost var before := lines;
      lines := Group(lines, Occurrences(effects[i]));
      GroupOneMore(before, lines, effects, i);
    }
    assert effects[..|effects|] == effects;
    forall p ensures p in lines <==> p in Touched(effects) {
      TouchedIsOccurring(effects, p);
    }
  }

  /** `build_timelines`: the grouped occurrences, or nothing when some path is discontinuous. */
  method BuildTimelines(effects: seq<Effect>) returns (r: Option<map<Path, seq<Occurrence>>>)
    ensures r.Some? <==> forall p :: p in Touched(effects) ==> Continuous(At(Flatten(effects), p))
    ensures r.Some? ==> Timelines(effects, r.value)
  {
    var lines := GroupAll(effects);
    forall p | p in lines ensures lines[p] != [] && lines[p] == At(Flatten(effects), p) {
      assert Line(lines, p) == At(Flatten(effects), p);
      TouchedIsOccurring(effects, p);
    }
    var todo := lines.Keys;
    while todo != {}
      invariant todo <= lines.Keys
      invariant forall p :: p in lines && p !in todo ==> Continuous(lines[p])
      decreases todo
    {
      var p :| p in todo;
      var continuous := IsContinuous(lines[p]);
      if !continuous {
        return None;
      }
      todo := todo - {p};
    }
    return Some(lines);
  }

  method IsContinuous(line: seq<Occurrence>) returns (ok: bool)
    ensures ok <==> Continuous(line)
  {
    for i := 0 to |line|
      invariant forall a, b :: 0 <= a && b == a + 1 < i ==> line[a].post == line[b].pre
    {
      if i > 0 && line[i - 1].post != line[i].pre {
        return false;
      }
    }
    return true;
  }

  /** Phases 10 and 11 over the finished timelines. */
  method CoverageAndEndpoints(lines: map<Path, seq<Occurrence>>, initial: Surface, final: Surface) returns (ok: bool)
    requires forall p :: p in lines ==> lines[p] != []
    ensures ok <==>
      && initial.Keys == lines.Keys && final.Keys == lines.Keys
      && forall p :: p in lines ==> EndsMatch(lines[p], initial[p], final[p])
  {
    if lines.Keys - initial.Keys != {} || initial.Keys - lines.Keys != {}
       || lines.Keys - final.Keys != {} || final.Keys - lines.Keys != {} {
      return false;
    }
    var todo := lines.Keys;
    while todo != {}
      invariant todo <= lines.Keys
      invariant forall p :: p in lines && p !in todo ==> EndsMatch(lines[p], initial[p], final[p])
      decreases todo
    {
      var p :| p in todo;
      if lines[p][0].pre != initial[p] || lines[p][|lines[p]| - 1].post != final[p] {
        return false;
      }
      todo := todo - {p};
    }
    return true;
  }

  /** The compiler's timeline, coverage and endpoint phases accept exactly the specifications whose effects
      execute from the initial surface to the final one.  */
  method ChecksExecution(effects: seq<Effect>, initial: Surface, final: Surface) returns (ok: bool)
    requires MovesApart(effects)
    ensures ok <==> Realizes(effects, initial, final)
  {
    LocalChecksAreExecution(effects, initial, final);
    var lines := BuildTimelines(effects);
    if lines.None? {
      return false;
    }
    assert forall p :: p in lines.value ==> lines.value[p] == At(Flatten(effects), p);
    ok := CoverageAndEndpoints(lines.value, initial, final);
    assert ok ==> LocalChecks(effects, initial, final);
    assert LocalChecks(effects, initial, final) ==> ok;
  }
}
