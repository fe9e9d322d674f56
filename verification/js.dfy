/**
 The JavaScript primitives the game code leans on, written out so that the
 rest of the model can use them with their JavaScript meaning:
 `Math.floor(a / n)`, the `%` operator (whose remainder takes the sign of the
 dividend), `Number.prototype.toString` on integral values,
 `String.prototype.padStart`, and `String.prototype.toLowerCase`.
 */
module Js {

  /** `Math.floor(a / n)` for a positive divisor. */
  function FloorDiv(a: int, n: int): int
    requires n > 0
  {
    a / n
  }

  /** FloorDiv rounds down: it is the greatest `q` with `q * n <= a`. */
  lemma FloorDivIsFloor(a: int, n: int)
    requires n > 0
    ensures FloorDiv(a, n) * n <= a < FloorDiv(a, n) * n + n
  {
  }

  /** The quotient JavaScript's `%` is paired with: `a / n` truncated toward zero. */
  function TruncDiv(a: int, n: int): int
    requires n > 0
  {
    if a >= 0 then a / n else -((-a) / n)
  }

  /** JavaScript `a % n` for a positive divisor: the remainder has the sign of `a`. */
  function Rem(a: int, n: int): int
    requires n > 0
  {
    if a >= 0 then a % n else -((-a) % n)
  }

  /**
   Rem is the remainder of truncating division: `a == TruncDiv(a, n) * n + Rem(a, n)`,
   with the remainder in `[0, n)` for non-negative `a` and in `(-n, 0]` for negative `a`.
   */
  lemma RemIsTruncatedRemainder(a: int, n: int)
    requires n > 0
    ensures a >= 0 ==> 0 <= Rem(a, n) < n
    ensures a < 0 ==> -n < Rem(a, n) <= 0
    ensures a == TruncDiv(a, n) * n + Rem(a, n)
  {
  }

  predicate IsDigit(c: char) {
    '0' <= c <= '9'
  }

  predicate AllDigits(s: string) {
    forall i :: 0 <= i < |s| ==> IsDigit(s[i])
  }

  function DigitValue(c: char): (d: nat)
    requires IsDigit(c)
    ensures d < 10
  {
    c as int - '0' as int
  }

  function DigitChar(d: nat): (c: char)
    requires d < 10
    ensures IsDigit(c) && DigitValue(c) == d
  {
    ('0' as int + d) as char
  }

  /** The value of a string of decimal digits, most significant first. */
  function DigitsValue(s: string): nat
    requires AllDigits(s)
    decreases |s|
  {
    if |s| == 0 then 0 else DigitsValue(s[..|s| - 1]) * 10 + DigitValue(s[|s| - 1])
  }

  /** The decimal digits of `n`, as `n.toString()` prints a non-negative integer. */
  function NatToString(n: nat): (s: string)
    ensures 1 <= |s|
    ensures AllDigits(s)
    ensures n < 10 <==> |s| == 1
    ensures s[0] == '0' ==> n == 0
    decreases n
  {
    if n < 10 then [DigitChar(n)] else NatToString(n / 10) + [DigitChar(n % 10)]
  }

  /** Reading the digits back gives the number that was printed. */
  lemma {:induction false} NatToStringRoundTrip(n: nat)
    ensures DigitsValue(NatToString(n)) == n
  {
    if n >= 10 {
      var s := NatToString(n / 10);
      var t := s + [DigitChar(n % 10)];
      assert t[..|t| - 1] == s;
      NatToStringRoundTrip(n / 10);
    }
  }

  /** `n.toString()` for an integral number: a minus sign for negative `n`, then the digits of its magnitude. */
  function IntToString(n: int): string {
    if n < 0 then "-" + NatToString(-n) else NatToString(n)
  }

  /** Reading back what IntToString printed gives the number: its digits, after a sign when negative. */
  lemma IntToStringRoundTrip(n: int)
    ensures var s := IntToString(n);
      && 1 <= |s|
      && (n >= 0 ==> AllDigits(s) && DigitsValue(s) == n)
      && (n < 0 ==> |s| >= 2 && s[0] == '-' && AllDigits(s[1..]) && DigitsValue(s[1..]) == -n)
  {
    if n < 0 {
      NatToStringRoundTrip(-n);
      assert IntToString(n)[1..] == NatToString(-n);
    } else {
      NatToStringRoundTrip(n);
    }
  }

  /** `s.padStart(width, fill)`: `fill` repeated in front of `s` up to length `width`. */
  function PadStart(s: string, width: nat, fill: char): string {
    if |s| >= width then s else seq(width - |s|, _ => fill) + s
  }

  /** PadStart keeps `s` as a suffix, puts only `fill` before it, and reaches at least `width`. */
  lemma PadStartShape(s: string, width: nat, fill: char)
    ensures var r := PadStart(s, width, fill);
      && |r| == (if |s| < width then width else |s|)
      && r[|r| - |s|..] == s
      && forall i :: 0 <= i < |r| - |s| ==> r[i] == fill
  {
  }

  /** The two decimal digits of a number below 100, tens first. */
  function Digits2(n: int): (s: string)
    requires 0 <= n < 100
    ensures |s| == 2 && AllDigits(s)
  {
    [DigitChar(n / 10), DigitChar(n % 10)]
  }

  lemma Digits2Value(n: int)
    requires 0 <= n < 100
    ensures DigitsValue(Digits2(n)) == n
  {
    var s := Digits2(n);
    assert s[..1][..0] == [];
    assert DigitsValue(s[..1]) == n / 10;
  }

  /** A number below 100, printed and zero-padded to two places, is its tens digit then its units digit. */
  lemma TwoDigits(n: int)
    requires 0 <= n < 100
    ensures PadStart(IntToString(n), 2, '0') == Digits2(n)
  {
    if n >= 10 {
      assert NatToString(n / 10) == [DigitChar(n / 10)];
    }
  }

  lemma DigitCharOfValue(c: char)
    requires IsDigit(c)
    ensures DigitChar(DigitValue(c)) == c
  {
  }

  /** The reverse of TwoDigits: a two-digit string is the padded print of its value. */
  lemma TwoDigitsValue(s: string)
    requires |s| == 2 && AllDigits(s)
    ensures DigitsValue(s) < 100
    ensures Digits2(DigitsValue(s)) == s
    ensures PadStart(IntToString(DigitsValue(s)), 2, '0') == s
  {
    var hi, lo := DigitValue(s[0]), DigitValue(s[1]);
    assert s[..1][..0] == [];
    assert DigitsValue(s[..1]) == hi;
    var v := hi * 10 + lo;
    assert DigitsValue(s) == v;
    assert v / 10 == hi && v % 10 == lo;
    TwoDigits(v);
    DigitCharOfValue(s[0]);
    DigitCharOfValue(s[1]);
  }

  function LowerChar(c: char): (l: char)
    ensures !('A' <= l <= 'Z')
  {
    if 'A' <= c <= 'Z' then (c as int - 'A' as int + 'a' as int) as char else c
  }

  /** `s.toLowerCase()`, on the ASCII letters. */
  function ToLower(s: string): (r: string)
    ensures |r| == |s|
    ensures forall i :: 0 <= i < |r| ==> !('A' <= r[i] <= 'Z')
    ensures forall i :: 0 <= i < |s| && !('A' <= s[i] <= 'Z') ==> r[i] == s[i]
  {
    seq(|s|, i requires 0 <= i < |s| => LowerChar(s[i]))
  }

}
