/** Canonical numerals: octal modes and decimal lengths as they stand in an envelope. */
module Numerals {
  import opened ChainModel

  datatype Base = Octal | Decimal

  function Radix(b: Base): nat {
    if b.Octal? then 8 else 10
  }

  function High(b: Base, n: nat): nat {
    if b.Octal? then n / 8 else n / 10
  }

  function Low(b: Base, n: nat): nat {
    if b.Octal? then n % 8 else n % 10
  }

  function Join(b: Base, high: nat, low: nat): nat {
    if b.Octal? then 8 * high + low else 10 * high + low
  }

  predicate IsDigit(b: Base, c: char) {
    '0' <= c <= if b.Octal? then '7' else '9'
  }

  /** The numeral that Python prints: no leading zero. */
  function Render(b: Base, n: nat): string {
    var last := ['0' + Low(b, n) as char];
    if n < Radix(b) then last else Render(b, High(b, n)) + last
  }

  predicate Digits(b: Base, s: string) {
    forall i :: 0 <= i < |s| ==> IsDigit(b, s[i])
  }

  function Value(b: Base, s: string): nat
    requires Digits(b, s)
  {
    if s == "" then 0 else Join(b, Value(b, s[..|s| - 1]), (s[|s| - 1] - '0') as nat)
  }

  /** The shape both readers accept. */
  predicate Canonical(b: Base, s: string) {
    s == "0" || (s != "" && s[0] != '0' && Digits(b, s))
  }

  lemma {:induction false} RenderIsCanonical(b: Base, n: nat)
    ensures Canonical(b, Render(b, n)) && Digits(b, Render(b, n)) && Value(b, Render(b, n)) == n
    ensures n > 0 ==> Render(b, n)[0] != '0'
  {
    if n >= Radix(b) {
      RenderIsCanonical(b, High(b, n));
      var s := Render(b, n);
      assert s[..|s| - 1] == Render(b, High(b, n));
    } else {
      var s := Render(b, n);
      assert s[..|s| - 1] == "";
    }
  }

  lemma JoinSplits(b: Base, high: nat, low: nat)
    requires low < Radix(b)
    ensures High(b, Join(b, high, low)) == high && Low(b, Join(b, high, low)) == low
    ensures Join(b, high, low) < Radix(b) <==> high == 0
  {
  }

  lemma {:induction false} CanonicalIsRendered(b: Base, s: string)
    requires Canonical(b, s)
    ensures Digits(b, s) && Render(b, Value(b, s)) == s
    ensures s != "0" ==> Value(b, s) > 0
  {
    var front, last := s[..|s| - 1], s[|s| - 1];
    var low := (last - '0') as nat;
    assert s == front + [last] && IsDigit(b, last);
    assert '0' + low as char == last;
    if front != "" {
      assert front[0] == s[0];
      CanonicalIsRendered(b, front);
      JoinSplits(b, Value(b, front), low);
    } else {
      assert Value(b, front) == 0;
      JoinSplits(b, 0, low);
    }
  }

  function Power(b: Base, k: nat): nat {
    if k == 0 then 1 else Radix(b) * Power(b, k - 1)
  }

  lemma {:induction false} RenderLength(b: Base, n: nat, k: nat)
    requires k > 0 && n < Power(b, k)
    ensures |Render(b, n)| <= k
  {
    if n >= Radix(b) {
      assert k > 1 by {
        assert Power(b, 1) == Radix(b) * Power(b, 0);
      }
      assert High(b, n) < Power(b, k - 1);
      RenderLength(b, High(b, n), k - 1);
    }
  }

  const MAX_MODE: nat := 4095 // 0o7777
  const MAX_MODE_DIGITS: nat := 6
  const MAX_INTEGER: nat := 0x7FFF_FFFF_FFFF_FFFF
  const MAX_DECIMAL_DIGITS: nat := 19

  /** `oct` */
  function ModeText(n: nat): string {
    "0o" + Render(Octal, n)
  }

  function Mode(s: string): Option<nat> {
    if |s| > MAX_MODE_DIGITS then None
    else
      var digits := if "0o" <= s then s[2..] else "";
      if !(digits == "0" || (digits != "" && digits[0] != '0' && Digits(Octal, digits))) then None
      else if Value(Octal, digits) <= MAX_MODE then Some(Value(Octal, digits)) else None
  }

  function Count(s: string): Option<nat> {
    if |s| > MAX_DECIMAL_DIGITS then None
    else if !(s == "0" || (s != "" && s[0] != '0' && Digits(Decimal, s))) then None
    else if Value(Decimal, s) <= MAX_INTEGER then Some(Value(Decimal, s)) else None
  }

  /** The mode reader accepts exactly the printed form of each mode up to 0o7777, as that mode. */
  lemma ModeIsExact(s: string, n: nat)
    ensures Mode(s) == Some(n) <==> n <= MAX_MODE && s == ModeText(n)
  {
    if Mode(s) == Some(n) {
      CanonicalIsRendered(Octal, s[2..]);
      assert s == "0o" + s[2..];
    }
    if n <= MAX_MODE && s == ModeText(n) {
      RenderIsCanonical(Octal, n);
      assert Power(Octal, 4) == 4096;
      RenderLength(Octal, n, 4);
      assert s[2..] == Render(Octal, n);
    }
  }

  /** The length reader accepts exactly the printed form of each count up to 2**63 - 1: its cap of 19
      digits turns away no such count.  */
  lemma CountIsExact(s: string, n: nat)
    ensures Count(s) == Some(n) <==> n <= MAX_INTEGER && s == Render(Decimal, n)
  {
    if Count(s) == Some(n) {
      CanonicalIsRendered(Decimal, s);
    }
    if n <= MAX_INTEGER && s == Render(Decimal, n) {
      RenderIsCanonical(Decimal, n);
      assert Power(Decimal, 10) == 10_000_000_000;
      assert Power(Decimal, 19) == 10_000_000_000_000_000_000;
      RenderLength(Decimal, n, 19);
    }
  }
}
