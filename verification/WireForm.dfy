/** What stands in an envelope: numerals, payloads, path states, surfaces and entries, each given by its
    written form.  The codec modules show that reading undoes writing; this one says what is written.  */
module WireForm {
  import opened ChainModel
  import opened Effects
  import Base64
  import Numerals
  import EntryCodec

  // ---- alphabets ----

  /** 64 lower-case hexadecimal digits. */
  ghost predicate Hex64(s: string) {
    |s| == 64 && forall i :: 0 <= i < |s| ==> '0' <= s[i] <= '9' || 'a' <= s[i] <= 'f'
  }

  /** 1 to 64 letters, digits, underscores and hyphens. */
  ghost predicate Name(s: string) {
    && 1 <= |s| <= 64
    && forall i :: 0 <= i < |s| ==>
      'A' <= s[i] <= 'Z' || 'a' <= s[i] <= 'z' || '0' <= s[i] <= '9' || s[i] == '_' || s[i] == '-'
  }

  // ---- numerals ----

  ghost function Power(radix: nat, k: nat): nat {
    if k == 0 then 1 else radix * Power(radix, k - 1)
  }

  ghost function Digit(c: char): int {
    c as int - '0' as int
  }

  /** The number a digit string stands for: each digit times the power of its place. */
  ghost function Worth(radix: nat, s: string): int {
    if s == "" then 0 else Digit(s[0]) * Power(radix, |s| - 1) + Worth(radix, s[1..])
  }

  lemma {:induction false} WorthBySnoc(radix: nat, s: string, c: char)
    ensures Worth(radix, s + [c]) == radix * Worth(radix, s) + Digit(c)
  {
    if s == "" {
      assert [c][1..] == "";
      assert s + [c] == [c];
    } else {
      var d := Digit(s[0]);
      assert (s + [c])[1..] == s[1..] + [c] && (s + [c])[0] == s[0];
      WorthBySnoc(radix, s[1..], c);
      calc {
        Worth(radix, s + [c]);
        d * Power(radix, |s|) + (radix * Worth(radix, s[1..]) + Digit(c));
        { MovesOut(d, radix, Power(radix, |s| - 1)); }
        radix * (d * Power(radix, |s| - 1)) + radix * Worth(radix, s[1..]) + Digit(c);
        radix * (d * Power(radix, |s| - 1) + Worth(radix, s[1..])) + Digit(c);
      }
    }
  }

  lemma MovesOut(d: int, radix: nat, p: nat)
    ensures d * (radix * p) == radix * (d * p)
  {
  }

  function RadixOf(b: Numerals.Base): nat {
    if b.Octal? then 8 else 10
  }

  lemma {:induction false} ValueIsWorth(b: Numerals.Base, s: string)
    requires Numerals.Digits(b, s)
    ensures Numerals.Value(b, s) == Worth(RadixOf(b), s)
  {
    if s != "" {
      var front, last := s[..|s| - 1], s[|s| - 1];
      assert s == front + [last];
      ValueIsWorth(b, front);
      WorthBySnoc(RadixOf(b), front, last);
    }
  }

  /** Digits of the base, no leading zero, together worth `n`. */
  ghost predicate Spells(radix: nat, s: string, n: nat) {
    && s != "" && (s[0] == '0' ==> s == "0")
    && (forall i :: 0 <= i < |s| ==> 0 <= Digit(s[i]) < radix)
    && Worth(radix, s) == n
  }

  lemma DigitsAre(b: Numerals.Base, s: string)
    ensures Numerals.Digits(b, s) <==> forall i :: 0 <= i < |s| ==> 0 <= Digit(s[i]) < RadixOf(b)
  {
    assert forall i :: 0 <= i < |s| ==> (Numerals.IsDigit(b, s[i]) <==> 0 <= Digit(s[i]) < RadixOf(b));
  }

  lemma NumeralSpells(b: Numerals.Base, s: string, n: nat)
    ensures s == Numerals.Render(b, n) <==> Spells(RadixOf(b), s, n)
  {
    Numerals.RenderIsCanonical(b, n);
    DigitsAre(b, s);
    if s == Numerals.Render(b, n) {
      ValueIsWorth(b, s);
    }
    if Spells(RadixOf(b), s, n) {
      Numerals.CanonicalIsRendered(b, s);
      ValueIsWorth(b, s);
    }
  }

  /** A mode's numeral is octal behind 0o, a count's decimal; either is written in one way. */
  lemma NumeralsSpell(s: string, n: nat)
    ensures s == Numerals.ModeText(n) <==> "0o" <= s && Spells(8, s[2..], n)
    ensures s == Numerals.Render(Numerals.Decimal, n) <==> Spells(10, s, n)
  {
    NumeralSpells(Numerals.Decimal, s, n);
    if "0o" <= s {
      NumeralSpells(Numerals.Octal, s[2..], n);
      assert s == "0o" + s[2..];
    }
    assert Numerals.ModeText(n)[2..] == Numerals.Render(Numerals.Octal, n);
  }

  // ---- payloads ----

  /** The number a letter of the base64 alphabet stands for (table 1 of RFC 4648), or -1. */
  ghost function Sextet(c: char): int {
    if 'A' <= c <= 'Z' then c as int - 65
    else if 'a' <= c <= 'z' then c as int - 97 + 26
    else if '0' <= c <= '9' then c as int - 48 + 52
    else if c == '+' then 62
    else if c == '/' then 63
    else -1
  }

  lemma SymbolIsLetter(v: Base64.Sextet)
    ensures Sextet(Base64.Letter(Base64.Six(v))) == v
  {
  }

  lemma {:induction false} TextIsLetters(symbols: seq<Base64.Symbol>)
    ensures |Base64.Text(symbols)| == |symbols|
    ensures forall i :: 0 <= i < |symbols| ==> Base64.Text(symbols)[i] == Base64.Letter(symbols[i])
  {
    if symbols != [] {
      TextIsLetters(symbols[1..]);
    }
  }

  /** Four characters hold the 24 bits of three bytes; two or three and padding hold the bits of one or two,
      filled up with zeros (section 4 of RFC 4648).  */
  ghost predicate HoldsBits(four: string, bytes: seq<Base64.Byte>)
    requires 1 <= |bytes| <= 3
  {
    && |four| == 4 && 0 <= Sextet(four[0]) && 0 <= Sextet(four[1])
    && var high := Sextet(four[0]) * 64 + Sextet(four[1]);
    && var byte: int -> int := i => if 0 <= i < |bytes| then bytes[i] else 0;
    && match |bytes|
       case 1 => four[2] == '=' && four[3] == '=' && high == byte(0) * 16
       case 2 => 0 <= Sextet(four[2]) && four[3] == '=' && high * 64 + Sextet(four[2]) == (byte(0) * 256 + byte(1)) * 4
       case _ =>
         && 0 <= Sextet(four[2]) && 0 <= Sextet(four[3])
         && (high * 64 + Sextet(four[2])) * 64 + Sextet(four[3]) == (byte(0) * 256 + byte(1)) * 256 + byte(2)
  }

  lemma BitsAdd(x: nat, y: nat, z: nat)
    ensures x / 4 * 64 + (x % 4 * 16 + y / 16) == x * 16 + y / 16
    ensures (x * 16 + y / 16) * 64 + (y % 16 * 4 + z / 64) == (x * 256 + y) * 4 + z / 64
    ensures ((x * 256 + y) * 4 + z / 64) * 64 + z % 64 == (x * 256 + y) * 256 + z
  {
  }

  lemma GroupHolds(x: Base64.Byte, y: Base64.Byte, z: Base64.Byte)
    ensures HoldsBits(Base64.Text(Base64.Group(x, y, z)), [x, y, z])
  {
    TextIsLetters(Base64.Group(x, y, z));
    BitsAdd(x, y, z);
    SymbolIsLetter(x / 4);
    SymbolIsLetter(x % 4 * 16 + y / 16);
    SymbolIsLetter(y % 16 * 4 + z / 64);
    SymbolIsLetter(z % 64);
  }

  lemma ShortGroupHolds(x: Base64.Byte, y: Base64.Byte)
    ensures HoldsBits(Base64.Text([Base64.Six(x / 4), Base64.Six(x % 4 * 16), Base64.Pad, Base64.Pad]), [x])
    ensures HoldsBits(Base64.Text([Base64.Six(x / 4), Base64.Six(x % 4 * 16 + y / 16), Base64.Six(y % 16 * 4), Base64.Pad]), [x, y])
  {
    TextIsLetters([Base64.Six(x / 4), Base64.Six(x % 4 * 16), Base64.Pad, Base64.Pad]);
    TextIsLetters([Base64.Six(x / 4), Base64.Six(x % 4 * 16 + y / 16), Base64.Six(y % 16 * 4), Base64.Pad]);
    BitsAdd(x, y, 0);
    BitsAdd(x, 0, 0);
    SymbolIsLetter(x / 4);
    SymbolIsLetter(x % 4 * 16);
    SymbolIsLetter(x % 4 * 16 + y / 16);
    SymbolIsLetter(y % 16 * 4);
  }

  lemma TextJoins(a: seq<Base64.Symbol>, b: seq<Base64.Symbol>)
    ensures Base64.Text(a + b) == Base64.Text(a) + Base64.Text(b)
  {
    TextIsLetters(a);
    TextIsLetters(b);
    TextIsLetters(a + b);
    forall i | 0 <= i < |a + b| ensures Base64.Text(a + b)[i] == (Base64.Text(a) + Base64.Text(b))[i] {}
  }

  lemma {:induction false} PayloadLength(b: seq<Base64.Byte>)
    ensures |Base64.Encode(b)| == 4 * ((|b| + 2) / 3)
  {
    TextIsLetters(Base64.EncodeSymbols(b));
    if |b| > 2 {
      PayloadLength(b[3..]);
      TextIsLetters(Base64.EncodeSymbols(b[3..]));
    }
  }

  lemma PayloadStep(b: seq<Base64.Byte>)
    requires |b| > 2
    ensures |Base64.Encode(b)| >= 4 && Base64.Encode(b)[4..] == Base64.Encode(b[3..])
    ensures HoldsBits(Base64.Encode(b)[..4], b[..3])
  {
    var first, rest := Base64.Group(b[0], b[1], b[2]), Base64.EncodeSymbols(b[3..]);
    TextJoins(first, rest);
    TextIsLetters(first);
    GroupHolds(b[0], b[1], b[2]);
    assert b[..3] == [b[0], b[1], b[2]];
  }

  /** The bytes of group `k`. */
  ghost function Bytes(b: seq<Base64.Byte>, k: nat): (group: seq<Base64.Byte>)
    requires 3 * k < |b|
    ensures 1 <= |group| <= 3
  {
    if 3 * k + 3 <= |b| then b[3 * k..3 * k + 3] else b[3 * k..]
  }

  lemma NextGroup(b: seq<Base64.Byte>, s: string, k: nat)
    requires 0 < k && 3 * k < |b| && 4 * k + 4 <= |s|
    ensures Bytes(b, k) == Bytes(b[3..], k - 1)
    ensures s[4 * k..4 * k + 4] == s[4..][4 * (k - 1)..4 * (k - 1) + 4]
  {
  }

  lemma LastGroup(b: seq<Base64.Byte>)
    requires 0 < |b| < 3
    ensures HoldsBits(Base64.Encode(b), Bytes(b, 0))
  {
    ShortGroupHolds(b[0], if |b| == 2 then b[1] else 0);
    assert b == if |b| == 1 then [b[0]] else [b[0], b[1]];
    assert Bytes(b, 0) == b;
  }

  /** A payload is written three bytes at a time, the last group perhaps shorter. */
  lemma {:induction false} PayloadIsWritten(b: seq<Base64.Byte>, k: nat)
    requires 3 * k < |b|
    ensures |Base64.Encode(b)| == 4 * ((|b| + 2) / 3)
    ensures 4 * k + 4 <= |Base64.Encode(b)|
    ensures HoldsBits(Base64.Encode(b)[4 * k..4 * k + 4], Bytes(b, k))
    decreases |b|
  {
    PayloadLength(b);
    var s := Base64.Encode(b);
    if |b| < 3 {
      LastGroup(b);
      assert s[0..4] == s;
    } else {
      PayloadStep(b);
      if k > 0 {
        PayloadIsWritten(b[3..], k - 1);
        NextGroup(b, s, k);
      } else {
        assert Bytes(b, 0) == b[..3] && s[0..4] == s[..4];
      }
    }
  }

  // ---- path states ----

  /** An absent path is one fact. */
  lemma AbsentIsWritten(facts: EntryCodec.Facts)
    ensures EntryCodec.EncodeState(Absent) == Some(facts) <==> facts == [("kind", "absent")]
  {
    EntryCodec.AbsentIsExact([("kind", "absent")]);
    assert EntryCodec.Keys([("kind", "absent")]) == ["kind"];
    EntryCodec.FactsAre([("kind", "absent")], ["kind"]);
  }

  /** The four facts of a file, in their order. */
  ghost predicate FourFacts(facts: EntryCodec.Facts) {
    |facts| == 4 && facts[0] == ("kind", "file") && facts[1].0 == "content_hash" && facts[2].0 == "mode" && facts[3].0 == "byte_len"
  }

  lemma FileFactsAre(facts: EntryCodec.Facts)
    ensures FourFacts(facts) ==> facts == EntryCodec.FileFacts(facts[1].1, facts[2].1, facts[3].1)
    ensures forall state: PathState :: state.FileState? && EntryCodec.DecodeState(facts) == Some(state) ==> FourFacts(facts)
  {
    if EntryCodec.DecodeState(facts).Some? && EntryCodec.DecodeState(facts).value.FileState? {
      EntryCodec.DecodedFile(facts);
    }
  }

  lemma HashIsPrefixed(hash: string, digits: string)
    ensures hash == "sha256:" + digits && Hex64(digits) <==> EntryCodec.IsContentHash(hash) && hash[7..] == digits
  {
    assert ("sha256:" + digits)[7..] == digits;
    if "sha256:" <= hash {
      assert hash == "sha256:" + hash[7..];
    }
  }

  /** A file is written as its content hash without the prefix, its mode and its length, in this order; an
      empty file, and no other, has the hash of nothing.  */
  lemma FileIsWritten(hash: string, byteLen: nat, mode: nat, facts: EntryCodec.Facts)
    ensures EntryCodec.EncodeState(FileState(hash, byteLen, mode)) == Some(facts) <==>
      && |facts| == 4 && facts[0] == ("kind", "file")
      && facts[1].0 == "content_hash" && hash == "sha256:" + facts[1].1 && Hex64(facts[1].1)
      && facts[2].0 == "mode" && mode <= 4095 && "0o" <= facts[2].1 && Spells(8, facts[2].1[2..], mode)
      && facts[3].0 == "byte_len" && byteLen <= 9223372036854775807 && Spells(10, facts[3].1, byteLen)
      && (byteLen == 0 <==> facts[1].1 == "e3b0c44298fc1c149afbf4c8996fb92427ae41e4649b934ca495991b7852b855")
  {
    EntryCodec.FileStateIsExact(facts, FileState(hash, byteLen, mode));
    FileFactsAre(facts);
    if FourFacts(facts) {
      NumeralsSpell(facts[2].1, mode);
      NumeralsSpell(facts[3].1, byteLen);
      HashIsPrefixed(hash, facts[1].1);
      EntryCodec.FileIsExact(facts[1].1, facts[2].1, facts[3].1, FileState(hash, byteLen, mode));
      EntryCodec.FileFactsDecode(facts[1].1, facts[2].1, facts[3].1);
    }
  }

  /** A symlink is written as its target, which is not empty and has no NUL, and its mode. */
  lemma SymlinkIsWritten(target: string, mode: nat, facts: EntryCodec.Facts)
    ensures EntryCodec.EncodeState(SymlinkState(target, mode)) == Some(facts) <==>
      && |facts| == 3 && facts[0] == ("kind", "symlink")
      && facts[1] == ("target", target) && target != "" && '\0' !in target
      && facts[2].0 == "mode" && mode <= 4095 && "0o" <= facts[2].1 && Spells(8, facts[2].1[2..], mode)
  {
    var text := Numerals.ModeText(mode);
    var written := [("kind", "symlink"), ("target", target), ("mode", text)];
    assert EntryCodec.Keys(written) == ["kind", "target", "mode"];
    EntryCodec.FactsAre(written, EntryCodec.Keys(written));
    Numerals.ModeIsExact(text, mode);
    NumeralsSpell(text, mode);
    if |facts| == 3 {
      NumeralsSpell(facts[2].1, mode);
      assert facts == [facts[0], facts[1], facts[2]];
    }
  }

  /** A directory is written as its mode. */
  lemma DirectoryIsWritten(mode: nat, facts: EntryCodec.Facts)
    ensures EntryCodec.EncodeState(DirectoryState(mode)) == Some(facts) <==>
      && |facts| == 2 && facts[0] == ("kind", "directory")
      && facts[1].0 == "mode" && mode <= 4095 && "0o" <= facts[1].1 && Spells(8, facts[1].1[2..], mode)
  {
    var text := Numerals.ModeText(mode);
    var written := [("kind", "directory"), ("mode", text)];
    assert EntryCodec.Keys(written) == ["kind", "mode"];
    EntryCodec.FactsAre(written, EntryCodec.Keys(written));
    Numerals.ModeIsExact(text, mode);
    NumeralsSpell(text, mode);
    if |facts| == 2 {
      NumeralsSpell(facts[1].1, mode);
      assert facts == [facts[0], facts[1]];
    }
  }

  // ---- surfaces ----

  /** Behind a common beginning, `a` ends or has the smaller code point. */
  ghost predicate Precedes(a: string, b: string) {
    exists k :: 0 <= k <= |a| && k < |b| && a[..k] == b[..k] && (k == |a| || a[k] < b[k])
  }

  lemma {:induction false} BeforePrecedes(a: string, b: string)
    ensures EntryCodec.Before(a, b) <==> Precedes(a, b)
  {
    if b != "" && a != "" && a[0] == b[0] {
      BeforePrecedes(a[1..], b[1..]);
      if Precedes(a[1..], b[1..]) {
        var k :| 0 <= k <= |a[1..]| && k < |b[1..]| && a[1..][..k] == b[1..][..k] && (k == |a[1..]| || a[1..][k] < b[1..][k]);
        assert a[..k + 1] == [a[0]] + a[1..][..k] && b[..k + 1] == [b[0]] + b[1..][..k];
      }
      if Precedes(a, b) {
        var k :| 0 <= k <= |a| && k < |b| && a[..k] == b[..k] && (k == |a| || a[k] < b[k]);
        assert k > 0;
        assert a[1..][..k - 1] == a[..k][1..] && b[1..][..k - 1] == b[..k][1..];
      }
    } else if EntryCodec.Before(a, b) {
      assert a[..0] == b[..0];
    }
  }

  /** A surface may be written when its paths are legal and in strictly increasing order and its states decode. */
  lemma SurfacesAreOrdered(legal: string -> bool, s: EntryCodec.Surface)
    ensures EntryCodec.SurfaceOk(legal, s) <==>
      && (forall i :: 0 <= i < |s| ==> legal(s[i].0) && EntryCodec.DecodeState(s[i].1).Some?)
      && forall i, j :: 0 <= i < j < |s| ==> Precedes(s[i].0, s[j].0)
  {
    forall a, b ensures EntryCodec.Before(a, b) <==> Precedes(a, b) {
      BeforePrecedes(a, b);
    }
    if EntryCodec.SurfaceOk(legal, s) {
      EntryCodec.SurfaceIsIncreasing(legal, s);
    }
    if forall i, j :: 0 <= i < j < |s| ==> Precedes(s[i].0, s[j].0) {
      forall i, j | 0 <= i < j < |s| ensures s[i].0 != s[j].0 && !EntryCodec.Before(s[j].0, s[i].0) {
        EntryCodec.BeforeIsTotal(s[i].0, s[j].0);
      }
    }
  }

  /** The JSON value is the list of pairs of a path and the list of the pairs of its facts. */
  ghost predicate ListsSurface(j: EntryCodec.Json, s: EntryCodec.Surface) {
    && j.Arr? && |j.items| == |s|
    && forall i :: 0 <= i < |s| ==> ListsEntry(j.items[i], s[i])
  }

  ghost predicate ListsEntry(j: EntryCodec.Json, entry: (string, EntryCodec.Facts)) {
    && j.Arr? && |j.items| == 2 && j.items[0] == EntryCodec.Str(entry.0)
    && j.items[1].Arr? && |j.items[1].items| == |entry.1|
    && forall k :: 0 <= k < |entry.1| ==> j.items[1].items[k] == EntryCodec.Arr([EntryCodec.Str(entry.1[k].0), EntryCodec.Str(entry.1[k].1)])
  }

  lemma EntryIsListed(j: EntryCodec.Json, entry: (string, EntryCodec.Facts))
    ensures j == EntryCodec.EntryJson(entry) <==> ListsEntry(j, entry)
  {
    if ListsEntry(j, entry) {
      assert j.items[1].items == EntryCodec.FactsJson(entry.1).items;
      assert j.items == [j.items[0], j.items[1]];
    }
  }

  lemma SurfaceIsListed(j: EntryCodec.Json, s: EntryCodec.Surface)
    ensures j == EntryCodec.SurfaceJson(s) <==> ListsSurface(j, s)
  {
    forall i | j.Arr? && 0 <= i < |s| && i < |j.items| ensures j.items[i] == EntryCodec.EntryJson(s[i]) <==> ListsEntry(j.items[i], s[i]) {
      EntryIsListed(j.items[i], s[i]);
    }
    if ListsSurface(j, s) {
      assert j.items == EntryCodec.SurfaceJson(s).items;
    }
  }

  // ---- entries ----

  ghost predicate Links(o: EntryCodec.Object, previous: Option<string>) {
    "previous" in o && previous.Some? && Hex64(previous.value) && o["previous"] == EntryCodec.Str(previous.value)
  }

  /** A genesis has no predecessor. */
  lemma GenesisIsWritten(legal: string -> bool, previous: Option<string>, payload: seq<Base64.Byte>, baseline: EntryCodec.Surface, o: EntryCodec.Object)
    ensures EntryCodec.EncodeEntry(legal, previous, EntryCodec.GenesisEntry(payload, baseline)) == Some(o) <==>
      && o.Keys == {"class", "previous", "payload", "baseline"} && o["class"] == EntryCodec.Str("genesis")
      && previous == None && o["previous"] == EntryCodec.Null
      && o["payload"] == EntryCodec.Str(Base64.Encode(payload))
      && EntryCodec.SurfaceOk(legal, baseline) && ListsSurface(o["baseline"], baseline)
  {
    if "baseline" in o {
      SurfaceIsListed(o["baseline"], baseline);
    }
    var e := EntryCodec.GenesisEntry(payload, baseline);
    if EntryCodec.EntryOk(legal, previous, e) {
      EntryCodec.WrittenGenesis(legal, o, previous, e);
      if o.Keys == {"class", "previous", "payload", "baseline"} {
        EntryCodec.GenesisIsExact(legal, o, e);
      }
    }
  }

  /** A settlement names its registration and says "committed" exactly when it commits. */
  lemma SettlementIsWritten(legal: string -> bool, previous: Option<string>, txid: string, registration: string, outcome: Outcome, o: EntryCodec.Object)
    ensures EntryCodec.EncodeEntry(legal, previous, EntryCodec.SettledEntry(txid, registration, outcome)) == Some(o) <==>
      && o.Keys == {"class", "previous", "txid", "registration", "outcome"} && o["class"] == EntryCodec.Str("settled")
      && Links(o, previous)
      && o["txid"] == EntryCodec.Str(txid) && Name(txid)
      && o["registration"] == EntryCodec.Str(registration) && Hex64(registration)
      && ((outcome == Committed && o["outcome"] == EntryCodec.Str("committed"))
          || (outcome == RolledBack && o["outcome"] == EntryCodec.Str("rolled-back")))
  {
    var e := EntryCodec.SettledEntry(txid, registration, outcome);
    if EntryCodec.EntryOk(legal, previous, e) {
      EntryCodec.WrittenSettled(legal, o, previous, e);
    }
  }

  lemma RegistrationIsWritten(legal: string -> bool, previous: Option<string>, txid: string, intent: string, tag: string,
                              initial: EntryCodec.Surface, final: EntryCodec.Surface, fulfills: Option<string>, o: EntryCodec.Object)
    ensures EntryCodec.EncodeEntry(legal, previous, EntryCodec.RegisteredEntry(txid, intent, tag, initial, final, fulfills)) == Some(o) <==>
      && o.Keys == {"class", "previous", "txid", "intent_digest", "consumer_tag", "initial", "final", "fulfills"}
      && o["class"] == EntryCodec.Str("registered") && Links(o, previous)
      && o["txid"] == EntryCodec.Str(txid) && Name(txid)
      && o["intent_digest"] == EntryCodec.Str(intent) && "sha256:" <= intent && Hex64(intent[7..])
      && o["consumer_tag"] == EntryCodec.Str(tag) && Name(tag)
      && EntryCodec.SurfaceOk(legal, initial) && ListsSurface(o["initial"], initial)
      && EntryCodec.SurfaceOk(legal, final) && ListsSurface(o["final"], final)
      && if fulfills.Some? then Hex64(fulfills.value) && o["fulfills"] == EntryCodec.Str(fulfills.value) else o["fulfills"] == EntryCodec.Null
  {
    if "initial" in o && "final" in o {
      SurfaceIsListed(o["initial"], initial);
      SurfaceIsListed(o["final"], final);
    }
    var e := EntryCodec.RegisteredEntry(txid, intent, tag, initial, final, fulfills);
    EntryCodec.RegisteredObjectIs(o, previous, e);
  }

  lemma IntentIsWritten(legal: string -> bool, previous: Option<string>, payload: seq<Base64.Byte>, o: EntryCodec.Object)
    ensures EntryCodec.EncodeEntry(legal, previous, EntryCodec.IntentEntry(payload)) == Some(o) <==>
      && o.Keys == {"class", "previous", "payload"} && o["class"] == EntryCodec.Str("intent") && Links(o, previous)
      && o["payload"] == EntryCodec.Str(Base64.Encode(payload))
  {
    var e := EntryCodec.IntentEntry(payload);
    if EntryCodec.EntryOk(legal, previous, e) {
      EntryCodec.WrittenIntent(legal, o, previous, e);
      if o.Keys == {"class", "previous", "payload"} {
        EntryCodec.IntentIsExact(o, e);
      }
    }
  }
}
