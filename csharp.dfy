/** The few pieces of the C# runtime that the modelled code leans on:
    nullable references, `string.IsNullOrWhiteSpace`, the decimal rendering
    used by string interpolation of an `int`, 32-bit `int` and the C# `/`
    operator, which truncates toward zero. */
module CSharp {

  /** A C# reference that may be `null`. */
  datatype Nullable<T> = Null | NonNull(value: T)

  /** The `null` that a delegate typed `Func<object?, ...>` receives from the
      unit-result overloads: the only value of its parameter. */
  datatype NullObject = NullObject

  /** `char.IsWhiteSpace`: the Unicode space, line and paragraph separators,
      the control characters U+0009 to U+000D, and U+0085. */
  predicate IsWhiteSpace(c: char) {
    || ('\U{9}' <= c <= '\U{D}')
    || c == '\U{20}' || c == '\U{85}' || c == '\U{A0}' || c == '\U{1680}'
    || ('\U{2000}' <= c <= '\U{200A}')
    || c == '\U{2028}' || c == '\U{2029}' || c == '\U{202F}' || c == '\U{205F}' || c == '\U{3000}'
  }

  /** `string.IsNullOrWhiteSpace`. */
  predicate IsNullOrWhiteSpace(s: Nullable<string>) {
    match s
    case Null => true
    case NonNull(chars) => forall i | 0 <= i < |chars| :: IsWhiteSpace(chars[i])
  }

  /** A string that is not null and has at least one character that is not white space. */
  lemma {:induction false} NotBlank(s: string, k: nat)
    requires k < |s| && !IsWhiteSpace(s[k])
    ensures !IsNullOrWhiteSpace(NonNull(s))
  {
  }

  function Digit(d: nat): (c: char)
    requires d < 10
    ensures '0' <= c <= '9'
  {
    "0123456789"[d]
  }

  /** The value of a string of decimal digits (most significant first). */
  function DigitsValue(s: string): nat
    requires forall i | 0 <= i < |s| :: '0' <= s[i] <= '9'
  {
    if s == [] then 0
    else 10 * DigitsValue(s[..|s| - 1]) + (s[|s| - 1] as int - '0' as int)
  }

  /** The invariant-culture decimal rendering of a non-negative integer. */
  function NatToString(n: nat): (r: string)
    ensures |r| > 0 && forall i | 0 <= i < |r| :: '0' <= r[i] <= '9'
    ensures DigitsValue(r) == n
    ensures |r| > 1 ==> r[0] != '0'
  {
    if n < 10 then [Digit(n)]
    else
      var prefix := NatToString(n / 10);
      var r := prefix + [Digit(n % 10)];
      assert r[..|r| - 1] == prefix;
      r
  }

  /** How an `int` is rendered by string interpolation (`$"... {id} ..."`). */
  function IntToString(i: int): (r: string)
    ensures |r| > 0 && (r[0] == '-' <==> i < 0)
    ensures var digits := if i < 0 then r[1..] else r;
      && |digits| > 0
      && (forall k | 0 <= k < |digits| :: '0' <= digits[k] <= '9')
      && DigitsValue(digits) == Abs(i)
      && (|digits| > 1 ==> digits[0] != '0')
  {
    if i < 0 then "-" + NatToString(-i) else NatToString(i)
  }

  /** Distinct integers are rendered as distinct strings. */
  lemma {:induction false} IntToStringInjective(i: int, j: int)
    requires IntToString(i) == IntToString(j)
    ensures i == j
  {
    if i >= 0 && j >= 0 {
      assert DigitsValue(NatToString(i)) == i;
    } else if i < 0 && j < 0 {
      assert NatToString(-i) == IntToString(i)[1..];
      assert NatToString(-j) == IntToString(j)[1..];
    }
  }

  /** The C# `int` type. */
  newtype int32 = x: int | -0x8000_0000 <= x < 0x8000_0000

  function Abs(x: int): nat {
    if x < 0 then -x else x
  }

  /** C# integer division: the quotient is truncated toward zero (Dafny's own
      `/` is Euclidean and differs for negative operands). */
  function TruncDiv(a: int, b: int): int
    requires b != 0
  {
    var q := Abs(a) / Abs(b);
    if (a < 0) == (b < 0) then q else -q
  }

  /** Euclidean division of non-negative integers, the step both C# and Dafny agree on. */
  lemma NatDivision(x: nat, y: nat)
    requires y > 0
    ensures x == (x / y) * y + x % y && 0 <= x % y < y
  {
  }

  /** The truncating quotient is the one whose remainder is smaller than the
      divisor in magnitude and has the sign of the dividend. */
  lemma TruncDivQuotient(a: int, b: int)
    requires b != 0
    ensures var r := a - TruncDiv(a, b) * b;
      Abs(r) < Abs(b) && (r == 0 || (r < 0) == (a < 0))
  {
    var A: int, B: int := Abs(a), Abs(b);
    var q: int, m: int := A / B, A % B;
    NatDivision(A, B);
    var t := TruncDiv(a, b);
    var p := q * B;
    assert A == p + m;
    if (a < 0) == (b < 0) {
      assert t == q;
      if b > 0 {
        assert t * b == p;
        assert a - t * b == m;
      } else {
        assert t * b == -p by { assert b == -B; }
        assert a - t * b == -m;
      }
    } else {
      assert t == -q;
      if b > 0 {
        assert t * b == -p;
        assert a - t * b == -m;
      } else {
        assert t * b == p by { assert b == -B; assert (-q) * (-B) == q * B; }
        assert a - t * b == m;
      }
    }
  }

  /** The magnitude of the truncating quotient never exceeds that of the
      dividend, so C# `/` stays inside `int` except for `int.MinValue / -1`. */
  lemma TruncDivInRange(a: int, b: int)
    requires -0x8000_0000 <= a < 0x8000_0000 && -0x8000_0000 <= b < 0x8000_0000
    requires b != 0 && !(a == -0x8000_0000 && b == -1)
    ensures -0x8000_0000 <= TruncDiv(a, b) < 0x8000_0000
  {
    QuotientBound(Abs(a), Abs(b));
  }

  lemma QuotientBound(x: nat, y: nat)
    requires y > 0
    ensures x / y <= x
    ensures y >= 2 ==> 2 * (x / y) <= x
  {
    var q: nat := x / y;
    NatDivision(x, y);
    var k: nat := y - 1;
    assert q * y == q * k + q;
    if y >= 2 {
      var j: nat := y - 2;
      assert q * y == q * j + 2 * q;
    }
  }
}
