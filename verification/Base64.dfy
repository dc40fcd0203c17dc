/** Canonical base64 with padding (section 4 of RFC 4648), as payloads stand in an envelope. */
module Base64 {
  import opened ChainModel

  type Byte = x: nat | x < 256

  type Sextet = x: nat | x < 64

  datatype Symbol = Six(v: Sextet) | Pad

  // ---- the alphabet ----

  function Letter(s: Symbol): char {
    if s.Pad? then '='
    else if s.v < 26 then 'A' + s.v as char
    else if s.v < 52 then 'a' + (s.v - 26) as char
    else if s.v < 62 then '0' + (s.v - 52) as char
    else if s.v == 62 then '+' else '/'
  }

  function SymbolOf(c: char): Option<Symbol> {
    if 'A' <= c <= 'Z' then Some(Six((c - 'A') as nat))
    else if 'a' <= c <= 'z' then Some(Six((c - 'a') as nat + 26))
    else if '0' <= c <= '9' then Some(Six((c - '0') as nat + 52))
    else if c == '+' then Some(Six(62))
    else if c == '/' then Some(Six(63))
    else if c == '=' then Some(Pad)
    else None
  }

  lemma LetterRoundTrip(s: Symbol)
    ensures SymbolOf(Letter(s)) == Some(s)
  {
  }

  function Text(symbols: seq<Symbol>): string {
    if symbols == [] then "" else [Letter(symbols[0])] + Text(symbols[1..])
  }

  function Symbols(s: string): Option<seq<Symbol>> {
    if s == "" then Some([])
    else if SymbolOf(s[0]).None? || Symbols(s[1..]).None? then None
    else Some([SymbolOf(s[0]).value] + Symbols(s[1..]).value)
  }

  lemma SymbolsJoin(c: char, rest: string)
    requires SymbolOf(c).Some? && Symbols(rest).Some?
    ensures Symbols([c] + rest) == Some([SymbolOf(c).value] + Symbols(rest).value)
  {
    assert ([c] + rest)[1..] == rest;
  }

  lemma {:induction false} SymbolsUndoText(symbols: seq<Symbol>)
    ensures Symbols(Text(symbols)) == Some(symbols)
  {
    if symbols != [] {
      var first, rest := symbols[0], symbols[1..];
      SymbolsUndoText(rest);
      LetterRoundTrip(first);
      SymbolsJoin(Letter(first), Text(rest));
      assert Text(symbols) == [Letter(first)] + Text(rest);
      assert symbols == [first] + rest;
    }
  }

  // ---- groups of three bytes ----

  function Group(x: Byte, y: Byte, z: Byte): seq<Symbol> {
    [Six(x / 4), Six(x % 4 * 16 + y / 16), Six(y % 16 * 4 + z / 64), Six(z % 64)]
  }

  function EncodeSymbols(b: seq<Byte>): seq<Symbol> {
    if b == [] then []
    else if |b| == 1 then [Six(b[0] / 4), Six(b[0] % 4 * 16), Pad, Pad]
    else if |b| == 2 then [Six(b[0] / 4), Six(b[0] % 4 * 16 + b[1] / 16), Six(b[1] % 16 * 4), Pad]
    else Group(b[0], b[1], b[2]) + EncodeSymbols(b[3..])
  }

  function Encode(b: seq<Byte>): string {
    Text(EncodeSymbols(b))
  }

  /** Four symbols as up to three bytes; padding is allowed only at the end, and bits left over under it
      are dropped, as a lenient reader does.  */
  function ReadGroup(s: seq<Symbol>, last: bool): Option<seq<Byte>>
    requires |s| == 4
  {
    if s[0].Pad? || s[1].Pad? || (s[3].Six? && s[2].Pad?) || (!last && s[3].Pad?) then None
    else
      var x := s[0].v * 4 + s[1].v / 16;
      if s[2].Pad? then Some([x])
      else if s[3].Pad? then Some([x, s[1].v % 16 * 16 + s[2].v / 4])
      else Some([x, s[1].v % 16 * 16 + s[2].v / 4, s[2].v % 4 * 64 + s[3].v])
  }

  function Read(s: seq<Symbol>): Option<seq<Byte>> {
    if s == [] then Some([])
    else if |s| < 4 || ReadGroup(s[..4], |s| == 4).None? || Read(s[4..]).None? then None
    else Some(ReadGroup(s[..4], |s| == 4).value + Read(s[4..]).value)
  }

  /** Reads a payload and refuses any spelling but the canonical one. */
  function Decode(s: string): Option<seq<Byte>> {
    if Symbols(s).None? then None
    else
      var b := Read(Symbols(s).value);
      if b.Some? && Encode(b.value) == s then b else None
  }

  /** Three bytes survive being cut into four sextets. */
  lemma SextetsHoldBytes(x: Byte, y: Byte, z: Byte)
    ensures x / 4 * 4 + (x % 4 * 16 + y / 16) / 16 == x
    ensures (x % 4 * 16 + y / 16) % 16 * 16 + (y % 16 * 4 + z / 64) / 4 == y
    ensures (y % 16 * 4 + z / 64) % 4 * 64 + z % 64 == z
  {
    assert y / 16 < 16 && z / 64 < 4;
    assert (x % 4 * 16 + y / 16) / 16 == x % 4;
    assert (y % 16 * 4 + z / 64) / 4 == y % 16;
  }

  lemma GroupRoundTrip(x: Byte, y: Byte, z: Byte, last: bool)
    ensures ReadGroup(Group(x, y, z), last) == Some([x, y, z])
  {
    SextetsHoldBytes(x, y, z);
    var s := Group(x, y, z);
    assert !s[0].Pad? && !s[1].Pad? && !s[2].Pad? && !s[3].Pad?;
  }

  lemma ShortRoundTrip(x: Byte, y: Byte)
    ensures ReadGroup([Six(x / 4), Six(x % 4 * 16), Pad, Pad], true) == Some([x])
    ensures ReadGroup([Six(x / 4), Six(x % 4 * 16 + y / 16), Six(y % 16 * 4), Pad], true) == Some([x, y])
  {
  }

  /** Reading one group and then the rest. */
  lemma ReadJoins(s: seq<Symbol>, bytes: seq<Byte>, rest: seq<Byte>)
    requires |s| >= 4 && ReadGroup(s[..4], |s| == 4) == Some(bytes) && Read(s[4..]) == Some(rest)
    ensures Read(s) == Some(bytes + rest)
  {
  }

  lemma {:induction false} ReadUndoesEncode(b: seq<Byte>)
    ensures Read(EncodeSymbols(b)) == Some(b)
  {
    var s := EncodeSymbols(b);
    if 0 < |b| < 3 {
      ShortRoundTrip(b[0], if |b| == 2 then b[1] else 0);
      assert s[..4] == s && s[4..] == [];
      assert b == if |b| == 1 then [b[0]] else [b[0], b[1]];
      ReadJoins(s, b, []);
      assert b + [] == b;
    } else if |b| > 2 {
      ReadUndoesEncode(b[3..]);
      GroupRoundTrip(b[0], b[1], b[2], |s| == 4);
      assert s[..4] == Group(b[0], b[1], b[2]) && s[4..] == EncodeSymbols(b[3..]);
      assert b[..3] == [b[0], b[1], b[2]];
      ReadJoins(s, b[..3], b[3..]);
      assert b == b[..3] + b[3..];
    }
  }

  /** Decoding accepts exactly what encoding produces, and undoes it. */
  lemma PayloadIsExact(s: string, b: seq<Byte>)
    ensures Decode(s) == Some(b) <==> Encode(b) == s
  {
    ReadUndoesEncode(b);
    SymbolsUndoText(EncodeSymbols(b));
  }
}
