/** The path-state and entry codecs, at the level of JSON values: decoding accepts exactly what encoding
    produces.  Which strings are legal project paths is the caller's `legal`.  */
module EntryCodec {
  import opened ChainModel
  import opened Effects
  import Base64
  import Numerals

  /** A path state as ordered string facts. */
  type Facts = seq<(string, string)>

  type Surface = seq<(string, Facts)>

  datatype Json = Null | Str(s: string) | Arr(items: seq<Json>) | OtherJson

  type Object = map<string, Json>

  const EMPTY_HASH := "e3b0c44298fc1c149afbf4c8996fb92427ae41e4649b934ca495991b7852b855"

  predicate IsHex(s: string) {
    |s| == 64 && forall i :: 0 <= i < |s| ==> '0' <= s[i] <= '9' || 'a' <= s[i] <= 'f'
  }

  predicate IsContentHash(s: string) {
    "sha256:" <= s && IsHex(s[7..])
  }

  predicate IsIdentifier(s: string) {
    1 <= |s| <= 64 && forall i :: 0 <= i < |s| ==>
      'A' <= s[i] <= 'Z' || 'a' <= s[i] <= 'z' || '0' <= s[i] <= '9' || s[i] == '_' || s[i] == '-'
  }

  predicate IsTarget(s: string) {
    s != "" && '\0' !in s
  }

  // ---- path states ----

  function Keys(facts: Facts): seq<string> {
    seq(|facts|, i requires 0 <= i < |facts| => facts[i].0)
  }

  /** `dict(pairs)[key]`: the last pair wins. */
  function Fact(facts: Facts, key: string): string
    requires key in Keys(facts)
  {
    var n := |facts| - 1;
    if facts[n].0 == key then facts[n].1
    else
      assert Keys(facts) == Keys(facts[..n]) + [facts[n].0];
      Fact(facts[..n], key)
  }

  function DecodeState(facts: Facts): Option<PathState> {
    if facts == [] || Keys(facts)[0] != "kind" then None
    else
      match Fact(facts, "kind")
      case "absent" => if Keys(facts) == ["kind"] then Some(Absent) else None
      case "file" => if Keys(facts) == ["kind", "content_hash", "mode", "byte_len"] then DecodeFile(facts[1].1, facts[2].1, facts[3].1) else None
      case "symlink" =>
        if Keys(facts) == ["kind", "target", "mode"] && IsTarget(facts[1].1) && Numerals.Mode(facts[2].1).Some?
        then Some(SymlinkState(facts[1].1, Numerals.Mode(facts[2].1).value)) else None
      case "directory" =>
        if Keys(facts) == ["kind", "mode"] && Numerals.Mode(facts[1].1).Some?
        then Some(DirectoryState(Numerals.Mode(facts[1].1).value)) else None
      case _ => None
  }

  function DecodeFile(hash: string, mode: string, byteLen: string): Option<PathState> {
    if IsHex(hash) && Numerals.Mode(mode).Some? && Numerals.Count(byteLen).Some?
       && (hash == EMPTY_HASH <==> Numerals.Count(byteLen).value == 0)
    then Some(FileState("sha256:" + hash, Numerals.Count(byteLen).value, Numerals.Mode(mode).value)) else None
  }

  function EncodeState(state: PathState): Option<Facts> {
    var facts: Option<Facts> :=
      match state
      case Absent => Some([("kind", "absent")])
      case FileState(hash, byteLen, mode) =>
        if IsContentHash(hash) && mode <= Numerals.MAX_MODE && byteLen <= Numerals.MAX_INTEGER
        then Some([("kind", "file"), ("content_hash", hash[7..]), ("mode", Numerals.ModeText(mode)), ("byte_len", Numerals.Render(Numerals.Decimal, byteLen))])
        else None
      case SymlinkState(target, mode) =>
        if mode <= Numerals.MAX_MODE && IsTarget(target) then Some([("kind", "symlink"), ("target", target), ("mode", Numerals.ModeText(mode))]) else None
      case DirectoryState(mode) =>
        if mode <= Numerals.MAX_MODE then Some([("kind", "directory"), ("mode", Numerals.ModeText(mode))]) else None;
    if facts.Some? && DecodeState(facts.value).Some? then facts else None
  }

  /** Facts with these keys are determined by their values. */
  lemma FactsAre(facts: Facts, keys: seq<string>)
    requires Keys(facts) == keys && |keys| > 0 && keys[0] == "kind" && forall i :: 0 < i < |keys| ==> keys[i] != "kind"
    ensures |facts| == |keys| && forall i :: 0 <= i < |keys| ==> facts[i].0 == keys[i]
    ensures Fact(facts, "kind") == facts[0].1
    decreases |facts|
  {
    forall i | 0 <= i < |keys| ensures facts[i].0 == keys[i] {
      assert Keys(facts)[i] == facts[i].0;
    }
    var n := |facts| - 1;
    if n > 0 {
      FactsAre(facts[..n], keys[..n]);
    }
  }

  lemma FileIsExact(hash: string, mode: string, byteLen: string, state: PathState)
    ensures DecodeFile(hash, mode, byteLen) == Some(state) <==>
      && state.FileState? && IsContentHash(state.contentHash) && state.contentHash[7..] == hash
      && state.mode <= Numerals.MAX_MODE && mode == Numerals.ModeText(state.mode)
      && state.byteLen <= Numerals.MAX_INTEGER && byteLen == Numerals.Render(Numerals.Decimal, state.byteLen)
      && (hash == EMPTY_HASH <==> state.byteLen == 0)
  {
    if state.FileState? {
      Numerals.ModeIsExact(mode, state.mode);
      Numerals.CountIsExact(byteLen, state.byteLen);
      if IsContentHash(state.contentHash) {
        assert state.contentHash == "sha256:" + state.contentHash[7..];
      }
      assert ("sha256:" + hash)[7..] == hash;
    }
  }

  function FileFacts(hash: string, mode: string, byteLen: string): Facts {
    [("kind", "file"), ("content_hash", hash), ("mode", mode), ("byte_len", byteLen)]
  }

  lemma FileFactsDecode(hash: string, mode: string, byteLen: string)
    ensures DecodeState(FileFacts(hash, mode, byteLen)) == DecodeFile(hash, mode, byteLen)
  {
    var facts := FileFacts(hash, mode, byteLen);
    assert Keys(facts) == ["kind", "content_hash", "mode", "byte_len"];
    FactsAre(facts, Keys(facts));
  }

  /** Decodable file facts are the four facts in their order. */
  lemma DecodedFile(facts: Facts)
    requires DecodeState(facts).Some? && DecodeState(facts).value.FileState?
    ensures |facts| == 4 && facts == FileFacts(facts[1].1, facts[2].1, facts[3].1)
  {
    var keys := ["kind", "content_hash", "mode", "byte_len"];
    assert Keys(facts) == keys;
    FactsAre(facts, keys);
  }

  lemma FileStateIsExact(facts: Facts, state: PathState)
    requires state.FileState?
    ensures DecodeState(facts) == Some(state) <==> EncodeState(state) == Some(facts)
  {
    if DecodeState(facts) == Some(state) {
      DecodedFile(facts);
      FileIsExact(facts[1].1, facts[2].1, facts[3].1, state);
    }
    if IsContentHash(state.contentHash) && state.mode <= Numerals.MAX_MODE && state.byteLen <= Numerals.MAX_INTEGER {
      var hash, mode, count := state.contentHash[7..], Numerals.ModeText(state.mode), Numerals.Render(Numerals.Decimal, state.byteLen);
      FileFactsDecode(hash, mode, count);
      FileIsExact(hash, mode, count, state);
      Numerals.ModeIsExact(mode, state.mode);
      Numerals.CountIsExact(count, state.byteLen);
    }
    if DecodeState(facts) == Some(state) {
      FileFactsDecode(facts[1].1, facts[2].1, facts[3].1);
    }
  }

  lemma SymlinkIsExact(facts: Facts, state: PathState)
    requires state.SymlinkState?
    ensures DecodeState(facts) == Some(state) <==> EncodeState(state) == Some(facts)
  {
    var written := [("kind", "symlink"), ("target", state.target), ("mode", Numerals.ModeText(state.mode))];
    assert Keys(written) == ["kind", "target", "mode"];
    FactsAre(written, Keys(written));
    Numerals.ModeIsExact(Numerals.ModeText(state.mode), state.mode);
    if DecodeState(facts) == Some(state) {
      FactsAre(facts, ["kind", "target", "mode"]);
      Numerals.ModeIsExact(facts[2].1, state.mode);
      assert facts == written;
    }
  }

  lemma DirectoryIsExact(facts: Facts, state: PathState)
    requires state.DirectoryState?
    ensures DecodeState(facts) == Some(state) <==> EncodeState(state) == Some(facts)
  {
    var written := [("kind", "directory"), ("mode", Numerals.ModeText(state.mode))];
    assert Keys(written) == ["kind", "mode"];
    FactsAre(written, Keys(written));
    Numerals.ModeIsExact(Numerals.ModeText(state.mode), state.mode);
    if DecodeState(facts) == Some(state) {
      FactsAre(facts, ["kind", "mode"]);
      Numerals.ModeIsExact(facts[1].1, state.mode);
      assert facts == written;
    }
  }

  lemma AbsentIsExact(facts: Facts)
    ensures DecodeState(facts) == Some(Absent) <==> EncodeState(Absent) == Some(facts)
  {
    assert Keys([("kind", "absent")]) == ["kind"];
    FactsAre([("kind", "absent")], ["kind"]);
    if DecodeState(facts) == Some(Absent) {
      FactsAre(facts, ["kind"]);
      assert facts == [("kind", "absent")];
    }
  }

  /** The state codec is a bijection between the states it encodes and the facts it decodes. */
  lemma StateCodecIsExact(facts: Facts, state: PathState)
    ensures DecodeState(facts) == Some(state) <==> EncodeState(state) == Some(facts)
  {
    match state
    case Absent => AbsentIsExact(facts);
    case FileState(_, _, _) => FileStateIsExact(facts, state);
    case SymlinkState(_, _) => SymlinkIsExact(facts, state);
    case DirectoryState(_) => DirectoryIsExact(facts, state);
  }

  // ---- surfaces ----

  /** Strictly before, by code points. */
  predicate Before(a: string, b: string) {
    b != "" && (a == "" || a[0] < b[0] || (a[0] == b[0] && Before(a[1..], b[1..])))
  }

  predicate SurfaceOk(legal: string -> bool, s: Surface) {
    && (forall i :: 0 <= i < |s| ==> legal(s[i].0) && DecodeState(s[i].1).Some?)
    && (forall i :: 0 < i < |s| ==> !Before(s[i].0, s[i - 1].0))
    && forall i, j :: 0 <= i < j < |s| ==> s[i].0 != s[j].0
  }

  lemma {:induction false} BeforeIsTotal(a: string, b: string)
    ensures Before(a, b) || a == b || Before(b, a)
    ensures !(Before(a, b) && Before(b, a)) && !Before(a, a)
  {
    if a != "" {
      BeforeIsTotal(a[1..], if b == "" then "" else b[1..]);
      BeforeIsTotal(a[1..], a[1..]);
      if b != "" && a[0] == b[0] && a[1..] == b[1..] {
        assert a == [a[0]] + a[1..] && b == [b[0]] + b[1..];
      }
    }
  }

  lemma {:induction false} BeforeIsTransitive(a: string, b: string, c: string)
    requires Before(a, b) && Before(b, c)
    ensures Before(a, c)
  {
    if a != "" && a[0] == b[0] == c[0] {
      BeforeIsTransitive(a[1..], b[1..], c[1..]);
    }
  }

  ghost predicate Increasing(s: Surface) {
    forall i, j :: 0 <= i < j < |s| ==> Before(s[i].0, s[j].0)
  }

  lemma {:induction false} StepsAreIncreasing(s: Surface, i: nat, j: nat)
    requires forall k :: 0 < k < |s| ==> Before(s[k - 1].0, s[k].0)
    requires i < j < |s|
    ensures Before(s[i].0, s[j].0)
    decreases j
  {
    if i < j - 1 {
      StepsAreIncreasing(s, i, j - 1);
      BeforeIsTransitive(s[i].0, s[j - 1].0, s[j].0);
    }
  }

  lemma SurfaceIsIncreasing(legal: string -> bool, s: Surface)
    requires SurfaceOk(legal, s)
    ensures Increasing(s)
  {
    forall k | 0 < k < |s| ensures Before(s[k - 1].0, s[k].0) {
      BeforeIsTotal(s[k - 1].0, s[k].0);
    }
    forall i, j | 0 <= i < j < |s| ensures Before(s[i].0, s[j].0) {
      StepsAreIncreasing(s, i, j);
    }
  }

  ghost predicate SameEntries(a: Surface, b: Surface) {
    forall x :: x in a <==> x in b
  }

  lemma HasEntry(s: Surface)
    ensures s == [] || exists x :: x in s
  {
    if s != [] {
      assert s[0] in s;
    }
  }

  lemma {:induction false} IncreasingIsDetermined(a: Surface, b: Surface)
    requires Increasing(a) && Increasing(b) && SameEntries(a, b)
    ensures a == b
    decreases |a|
  {
    if a == [] {
      HasEntry(b);
    } else {
      FrontsAgree(a, b);
      IncreasingIsDetermined(a[..|a| - 1], b[..|b| - 1]);
      assert a == a[..|a| - 1] + [a[|a| - 1]] && b == b[..|b| - 1] + [b[|b| - 1]];
    }
  }

  lemma FrontsAgree(a: Surface, b: Surface)
    requires Increasing(a) && Increasing(b) && a != [] && SameEntries(a, b)
    ensures b != [] && a[|a| - 1] == b[|b| - 1]
    ensures SameEntries(a[..|a| - 1], b[..|b| - 1])
  {
    LastIsLast(a, b);
    LastIsLast(b, a);
    BeforeIsTotal(a[|a| - 1].0, b[|b| - 1].0);
    var front, other := a[..|a| - 1], b[..|b| - 1];
    forall x ensures x in front <==> x in other {
      FrontOf(a, x);
      FrontOf(b, x);
    }
  }

  lemma FrontOf(s: Surface, x: (string, Facts))
    requires Increasing(s) && s != []
    ensures x in s[..|s| - 1] <==> x in s && x != s[|s| - 1]
  {
    assert s == s[..|s| - 1] + [s[|s| - 1]];
    BeforeIsTotal(x.0, x.0);
  }

  lemma LastIsLast(a: Surface, b: Surface)
    requires Increasing(a) && a != [] && SameEntries(a, b)
    ensures b != [] && !Before(a[|a| - 1].0, b[|b| - 1].0)
    ensures a[|a| - 1].0 == b[|b| - 1].0 ==> a[|a| - 1] == b[|b| - 1]
  {
    assert a[|a| - 1] in b;
    assert b[|b| - 1] in a;
    var i :| 0 <= i < |a| && a[i] == b[|b| - 1];
    BeforeIsTotal(a[i].0, a[|a| - 1].0);
  }

  /** A set of path states has one canonical listing. */
  lemma SurfaceIsDetermined(legal: string -> bool, a: Surface, b: Surface)
    requires SurfaceOk(legal, a) && SurfaceOk(legal, b) && SameEntries(a, b)
    ensures a == b
  {
    SurfaceIsIncreasing(legal, a);
    SurfaceIsIncreasing(legal, b);
    IncreasingIsDetermined(a, b);
  }

  function FactJson(pair: (string, string)): Json {
    Arr([Str(pair.0), Str(pair.1)])
  }

  function FactsJson(facts: Facts): Json {
    Arr(seq(|facts|, i requires 0 <= i < |facts| => FactJson(facts[i])))
  }

  function EntryJson(entry: (string, Facts)): Json {
    Arr([Str(entry.0), FactsJson(entry.1)])
  }

  function SurfaceJson(s: Surface): Json {
    Arr(seq(|s|, i requires 0 <= i < |s| => EntryJson(s[i])))
  }

  predicate IsFact(j: Json) {
    j.Arr? && |j.items| == 2 && j.items[0].Str? && j.items[1].Str?
  }

  predicate IsFacts(j: Json) {
    j.Arr? && forall i :: 0 <= i < |j.items| ==> IsFact(j.items[i])
  }

  predicate IsEntry(j: Json) {
    j.Arr? && |j.items| == 2 && j.items[0].Str? && IsFacts(j.items[1])
  }

  function FactsIn(j: Json): Facts
    requires IsFacts(j)
  {
    seq(|j.items|, i requires 0 <= i < |j.items| => (j.items[i].items[0].s, j.items[i].items[1].s))
  }

  /** The surface a JSON value stands for, if it stands for one. */
  function SurfaceIn(legal: string -> bool, j: Json): Option<Surface> {
    if !(j.Arr? && forall i :: 0 <= i < |j.items| ==> IsEntry(j.items[i])) then None
    else
      var s := seq(|j.items|, i requires 0 <= i < |j.items| => (j.items[i].items[0].s, FactsIn(j.items[i].items[1])));
      if SurfaceOk(legal, s) then Some(s) else None
  }

  /** The reading loop: it gathers the pairs and refuses the first malformed one. */
  method FactsFromJson(j: Json) returns (facts: Option<Facts>)
    ensures facts == if IsFacts(j) then Some(FactsIn(j)) else None
  {
    if !j.Arr? {
      return None;
    }
    var pairs: Facts := [];
    for i := 0 to |j.items|
      invariant |pairs| == i && forall k :: 0 <= k < i ==> IsFact(j.items[k]) && pairs[k] == (j.items[k].items[0].s, j.items[k].items[1].s)
    {
      if !IsFact(j.items[i]) {
        return None;
      }
      pairs := pairs + [(j.items[i].items[0].s, j.items[i].items[1].s)];
    }
    assert pairs == FactsIn(j);
    return Some(pairs);
  }

  method SurfaceFromJson(legal: string -> bool, j: Json) returns (surface: Option<Surface>)
    ensures surface == SurfaceIn(legal, j)
  {
    if !j.Arr? {
      return None;
    }
    var result: Surface := [];
    for i := 0 to |j.items|
      invariant |result| == i && forall k :: 0 <= k < i ==>
        IsEntry(j.items[k]) && result[k] == (j.items[k].items[0].s, FactsIn(j.items[k].items[1]))
    {
      var item := j.items[i];
      if !(item.Arr? && |item.items| == 2 && item.items[0].Str?) {
        return None;
      }
      var facts := FactsFromJson(item.items[1]);
      if facts.None? {
        return None;
      }
      result := result + [(item.items[0].s, facts.value)];
    }
    assert result == seq(|j.items|, i requires 0 <= i < |j.items| => (j.items[i].items[0].s, FactsIn(j.items[i].items[1])));
    return if SurfaceOk(legal, result) then Some(result) else None;
  }

  lemma FactsAreExact(j: Json, facts: Facts)
    ensures IsFacts(FactsJson(facts)) && FactsIn(FactsJson(facts)) == facts
    ensures IsFacts(j) ==> FactsJson(FactsIn(j)) == j
  {
    if IsFacts(j) {
      forall i | 0 <= i < |j.items| ensures FactJson(FactsIn(j)[i]) == j.items[i] {
        assert IsFact(j.items[i]);
        assert j.items[i].items == [Str(FactsIn(j)[i].0), Str(FactsIn(j)[i].1)];
      }
      assert FactsJson(FactsIn(j)).items == j.items;
    }
  }

  /** Surfaces: sorted, free of duplicates, every path legal and every state decodable. */
  lemma SurfaceIsExact(legal: string -> bool, j: Json, s: Surface)
    ensures SurfaceIn(legal, j) == Some(s) <==> SurfaceOk(legal, s) && j == SurfaceJson(s)
  {
    if SurfaceIn(legal, j) == Some(s) {
      forall i | 0 <= i < |j.items| ensures EntryJson(s[i]) == j.items[i] {
        assert IsEntry(j.items[i]);
        FactsAreExact(j.items[i].items[1], []);
        assert j.items[i].items == [Str(s[i].0), FactsJson(s[i].1)];
      }
      assert SurfaceJson(s).items == j.items;
    }
    if j == SurfaceJson(s) {
      forall i | 0 <= i < |j.items| ensures IsEntry(j.items[i]) && s[i] == (j.items[i].items[0].s, FactsIn(j.items[i].items[1])) {
        FactsAreExact(Null, s[i].1);
      }
      assert s == seq(|j.items|, i requires 0 <= i < |j.items| => (j.items[i].items[0].s, FactsIn(j.items[i].items[1])));
    }
  }

  // ---- entries ----

  datatype WireEntry =
    | GenesisEntry(payload: seq<Base64.Byte>, baseline: Surface)
    | RegisteredEntry(txid: string, intentDigest: string, consumerTag: string, initial: Surface, final: Surface, fulfills: Option<string>)
    | SettledEntry(txid: string, registration: string, outcome: Outcome)
    | IntentEntry(payload: seq<Base64.Byte>)

  function OutcomeText(o: Outcome): string {
    if o.Committed? then "committed" else "rolled-back"
  }

  function OutcomeOf(s: string): Option<Outcome> {
    if s == "committed" then Some(Committed) else if s == "rolled-back" then Some(RolledBack) else None
  }

  function OptionalJson(s: Option<string>): Json {
    if s.Some? then Str(s.value) else Null
  }

  predicate OptionalDigest(s: Option<string>) {
    s.Some? ==> IsHex(s.value)
  }

  predicate EntryOk(legal: string -> bool, previous: Option<string>, e: WireEntry) {
    && OptionalDigest(previous) && (previous.None? <==> e.GenesisEntry?)
    && match e
       case GenesisEntry(_, baseline) => SurfaceOk(legal, baseline)
       case RegisteredEntry(txid, intent, tag, initial, final, fulfills) =>
         IsIdentifier(txid) && IsContentHash(intent) && IsIdentifier(tag) && SurfaceOk(legal, initial) && SurfaceOk(legal, final) && OptionalDigest(fulfills)
       case SettledEntry(txid, registration, _) => IsIdentifier(txid) && IsHex(registration)
       case IntentEntry(_) => true
  }

  function RegisteredObject(previous: Option<string>, e: WireEntry): Object
    requires e.RegisteredEntry?
  {
    map["class" := Str("registered"), "previous" := OptionalJson(previous), "txid" := Str(e.txid), "intent_digest" := Str(e.intentDigest),
        "consumer_tag" := Str(e.consumerTag), "initial" := SurfaceJson(e.initial), "final" := SurfaceJson(e.final), "fulfills" := OptionalJson(e.fulfills)]
  }

  function EncodeEntry(legal: string -> bool, previous: Option<string>, e: WireEntry): Option<Object> {
    if !EntryOk(legal, previous, e) then None
    else
      match e
      case GenesisEntry(payload, baseline) =>
        Some(map["class" := Str("genesis"), "previous" := Null, "payload" := Str(Base64.Encode(payload)), "baseline" := SurfaceJson(baseline)])
      case RegisteredEntry(_, _, _, _, _, _) =>
        Some(RegisteredObject(previous, e))
      case SettledEntry(txid, registration, outcome) =>
        Some(map["class" := Str("settled"), "previous" := OptionalJson(previous), "txid" := Str(txid), "registration" := Str(registration),
                 "outcome" := Str(OutcomeText(outcome))])
      case IntentEntry(payload) =>
        Some(map["class" := Str("intent"), "previous" := OptionalJson(previous), "payload" := Str(Base64.Encode(payload))])
  }

  function OptionalDigestIn(j: Json): Option<Option<string>> {
    if j.Null? then Some(None) else if j.Str? && IsHex(j.s) then Some(Some(j.s)) else None
  }

  function DecodeGenesis(legal: string -> bool, o: Object): Option<WireEntry>
    requires o.Keys == {"class", "previous", "payload", "baseline"}
  {
    if !o["payload"].Str? || Base64.Decode(o["payload"].s).None? || SurfaceIn(legal, o["baseline"]).None? then None
    else Some(GenesisEntry(Base64.Decode(o["payload"].s).value, SurfaceIn(legal, o["baseline"]).value))
  }

  function DecodeRegistered(legal: string -> bool, o: Object): Option<WireEntry>
    requires o.Keys == {"class", "previous", "txid", "intent_digest", "consumer_tag", "initial", "final", "fulfills"}
  {
    if !o["txid"].Str? || !o["intent_digest"].Str? || !o["consumer_tag"].Str? || OptionalDigestIn(o["fulfills"]).None?
       || SurfaceIn(legal, o["initial"]).None? || SurfaceIn(legal, o["final"]).None? then None
    else Some(RegisteredEntry(o["txid"].s, o["intent_digest"].s, o["consumer_tag"].s,
                              SurfaceIn(legal, o["initial"]).value, SurfaceIn(legal, o["final"]).value, OptionalDigestIn(o["fulfills"]).value))
  }

  function DecodeSettled(o: Object): Option<WireEntry>
    requires o.Keys == {"class", "previous", "txid", "registration", "outcome"}
  {
    if !o["txid"].Str? || !o["registration"].Str? || !o["outcome"].Str? || OutcomeOf(o["outcome"].s).None? then None
    else Some(SettledEntry(o["txid"].s, o["registration"].s, OutcomeOf(o["outcome"].s).value))
  }

  function DecodeIntent(o: Object): Option<WireEntry>
    requires o.Keys == {"class", "previous", "payload"}
  {
    if !o["payload"].Str? || Base64.Decode(o["payload"].s).None? then None else Some(IntentEntry(Base64.Decode(o["payload"].s).value))
  }

  /** The class chooses the reader; every reader insists on its exact set of fields. */
  function DecodeByClass(legal: string -> bool, o: Object): Option<WireEntry> {
    if "class" !in o then None
    else if o["class"] == Str("genesis") then if o.Keys == {"class", "previous", "payload", "baseline"} then DecodeGenesis(legal, o) else None
    else if o["class"] == Str("registered") then
      if o.Keys == {"class", "previous", "txid", "intent_digest", "consumer_tag", "initial", "final", "fulfills"} then DecodeRegistered(legal, o) else None
    else if o["class"] == Str("settled") then if o.Keys == {"class", "previous", "txid", "registration", "outcome"} then DecodeSettled(o) else None
    else if o["class"] == Str("intent") then if o.Keys == {"class", "previous", "payload"} then DecodeIntent(o) else None
    else None
  }

  /** Reads the fields, then holds the result to the rules for writing one. */
  function DecodeEntry(legal: string -> bool, o: Object): Option<(Option<string>, WireEntry)> {
    var e := DecodeByClass(legal, o);
    if e.None? || "previous" !in o || OptionalDigestIn(o["previous"]).None? then None
    else if EncodeEntry(legal, OptionalDigestIn(o["previous"]).value, e.value).None? then None
    else Some((OptionalDigestIn(o["previous"]).value, e.value))
  }

  lemma OptionalIsExact(j: Json, s: Option<string>)
    ensures OptionalDigestIn(j) == Some(s) <==> OptionalDigest(s) && j == OptionalJson(s)
  {
  }

  lemma GenesisIsExact(legal: string -> bool, o: Object, e: WireEntry)
    requires o.Keys == {"class", "previous", "payload", "baseline"} && e.GenesisEntry?
    ensures DecodeGenesis(legal, o) == Some(e) <==>
      o["payload"] == Str(Base64.Encode(e.payload)) && SurfaceOk(legal, e.baseline) && o["baseline"] == SurfaceJson(e.baseline)
  {
    if o["payload"].Str? {
      Base64.PayloadIsExact(o["payload"].s, e.payload);
    }
    SurfaceIsExact(legal, o["baseline"], e.baseline);
  }

  lemma RegisteredIsExact(legal: string -> bool, o: Object, e: WireEntry)
    requires o.Keys == {"class", "previous", "txid", "intent_digest", "consumer_tag", "initial", "final", "fulfills"} && e.RegisteredEntry?
    ensures DecodeRegistered(legal, o) == Some(e) <==>
      && o["txid"] == Str(e.txid) && o["intent_digest"] == Str(e.intentDigest) && o["consumer_tag"] == Str(e.consumerTag)
      && SurfaceOk(legal, e.initial) && o["initial"] == SurfaceJson(e.initial)
      && SurfaceOk(legal, e.final) && o["final"] == SurfaceJson(e.final)
      && OptionalDigest(e.fulfills) && o["fulfills"] == OptionalJson(e.fulfills)
  {
    SurfaceIsExact(legal, o["initial"], e.initial);
    SurfaceIsExact(legal, o["final"], e.final);
    OptionalIsExact(o["fulfills"], e.fulfills);
  }

  lemma IntentIsExact(o: Object, e: WireEntry)
    requires o.Keys == {"class", "previous", "payload"} && e.IntentEntry?
    ensures DecodeIntent(o) == Some(e) <==> o["payload"] == Str(Base64.Encode(e.payload))
  {
    if o["payload"].Str? {
      Base64.PayloadIsExact(o["payload"].s, e.payload);
    }
  }

  /** What an object of each class must hold to be written from `e`. */
  predicate Holds(legal: string -> bool, o: Object, e: WireEntry) {
    "class" in o && "previous" in o &&
    match e
    case GenesisEntry(_, _) =>
      o.Keys == {"class", "previous", "payload", "baseline"} && o["class"] == Str("genesis") && DecodeGenesis(legal, o) == Some(e)
    case RegisteredEntry(_, _, _, _, _, _) =>
      o.Keys == {"class", "previous", "txid", "intent_digest", "consumer_tag", "initial", "final", "fulfills"}
      && o["class"] == Str("registered") && DecodeRegistered(legal, o) == Some(e)
    case SettledEntry(_, _, _) =>
      o.Keys == {"class", "previous", "txid", "registration", "outcome"} && o["class"] == Str("settled") && DecodeSettled(o) == Some(e)
    case IntentEntry(_) =>
      o.Keys == {"class", "previous", "payload"} && o["class"] == Str("intent") && DecodeIntent(o) == Some(e)
  }

  lemma ClassIsExact(legal: string -> bool, o: Object, e: WireEntry)
    ensures Holds(legal, o, e) <==> "previous" in o && DecodeByClass(legal, o) == Some(e)
  {
  }

  lemma WrittenGenesis(legal: string -> bool, o: Object, previous: Option<string>, e: WireEntry)
    requires EntryOk(legal, previous, e) && e.GenesisEntry?
    ensures Holds(legal, o, e) && o["previous"] == OptionalJson(previous) <==> EncodeEntry(legal, previous, e) == Some(o)
  {
    if o.Keys == {"class", "previous", "payload", "baseline"} {
      GenesisIsExact(legal, o, e);
      if Holds(legal, o, e) && o["previous"] == OptionalJson(previous) {
        assert EncodeEntry(legal, previous, e).value == o;
      }
    }
  }

  lemma RegisteredObjectIs(o: Object, previous: Option<string>, e: WireEntry)
    requires e.RegisteredEntry?
    ensures o == RegisteredObject(previous, e) <==>
      && o.Keys == {"class", "previous", "txid", "intent_digest", "consumer_tag", "initial", "final", "fulfills"}
      && o["class"] == Str("registered") && o["previous"] == OptionalJson(previous)
      && o["txid"] == Str(e.txid) && o["intent_digest"] == Str(e.intentDigest) && o["consumer_tag"] == Str(e.consumerTag)
      && o["initial"] == SurfaceJson(e.initial) && o["final"] == SurfaceJson(e.final) && o["fulfills"] == OptionalJson(e.fulfills)
  {
    assert RegisteredObject(previous, e).Keys == {"class", "previous", "txid", "intent_digest", "consumer_tag", "initial", "final", "fulfills"};
  }

  lemma WrittenRegistered(legal: string -> bool, o: Object, previous: Option<string>, e: WireEntry)
    requires EntryOk(legal, previous, e) && e.RegisteredEntry?
    ensures Holds(legal, o, e) && o["previous"] == OptionalJson(previous) <==> EncodeEntry(legal, previous, e) == Some(o)
  {
    RegisteredObjectIs(o, previous, e);
    if o.Keys == {"class", "previous", "txid", "intent_digest", "consumer_tag", "initial", "final", "fulfills"} {
      RegisteredIsExact(legal, o, e);
    }
  }

  lemma WrittenSettled(legal: string -> bool, o: Object, previous: Option<string>, e: WireEntry)
    requires EntryOk(legal, previous, e) && e.SettledEntry?
    ensures Holds(legal, o, e) && o["previous"] == OptionalJson(previous) <==> EncodeEntry(legal, previous, e) == Some(o)
  {
    if o.Keys == {"class", "previous", "txid", "registration", "outcome"} {
      if Holds(legal, o, e) && o["previous"] == OptionalJson(previous) {
        assert EncodeEntry(legal, previous, e).value == o;
      }
    }
  }

  lemma WrittenIntent(legal: string -> bool, o: Object, previous: Option<string>, e: WireEntry)
    requires EntryOk(legal, previous, e) && e.IntentEntry?
    ensures Holds(legal, o, e) && o["previous"] == OptionalJson(previous) <==> EncodeEntry(legal, previous, e) == Some(o)
  {
    if o.Keys == {"class", "previous", "payload"} {
      IntentIsExact(o, e);
      if Holds(legal, o, e) && o["previous"] == OptionalJson(previous) {
        assert EncodeEntry(legal, previous, e).value == o;
      }
    }
  }

  /** The entry codec is a bijection: an object decodes to an entry exactly when the entry encodes to it. */
  lemma EntryCodecIsExact(legal: string -> bool, o: Object, previous: Option<string>, e: WireEntry)
    ensures DecodeEntry(legal, o) == Some((previous, e)) <==> EncodeEntry(legal, previous, e) == Some(o)
  {
    if EntryOk(legal, previous, e) {
      ClassIsExact(legal, o, e);
      match e {
        case GenesisEntry(_, _) => WrittenGenesis(legal, o, previous, e);
        case RegisteredEntry(_, _, _, _, _, _) => WrittenRegistered(legal, o, previous, e);
        case SettledEntry(_, _, _) => WrittenSettled(legal, o, previous, e);
        case IntentEntry(_) => WrittenIntent(legal, o, previous, e);
      }
      if "previous" in o {
        OptionalIsExact(o["previous"], previous);
      }
    }
  }
}
