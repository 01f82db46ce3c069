/** Signed big integers as the SDK uses them, and the errors its arithmetic can raise.

    A `BN` is sign and magnitude: `div` truncates toward zero and `mod` takes the sign of the
    dividend, so neither is Dafny's Euclidean `/` and `%` on negative operands. */
module Bn {
  datatype Error =
    | DivisionByZero   // BN's assertion that a divisor is nonzero
    | UnsafeNumber     // BN's assertion that a JavaScript number is below 2^53
    | CannotCalc       // thrown for a per-LP exponent outside -9..9
    | BaseMismatch     // thrown when the exponents differ after the rebase

  datatype Option<+T> = None | Some(value: T) {
    function GetOr(default: T): T {
      if Some? then value else default
    }
  }

  datatype Result<+T> = Success(value: T) | Failure(error: Error) {
    predicate IsFailure() {
      Failure?
    }

    function PropagateFailure<U>(): Result<U>
      requires Failure?
    {
      Failure(error)
    }

    function Extract(): T
      requires Success?
    {
      value
    }
  }

  const MAX_SAFE := 0x1F_FFFF_FFFF_FFFF

  /** The integers a JavaScript number holds exactly and a BN converts to and from. */
  predicate IsSafe(x: int) {
    -MAX_SAFE <= x <= MAX_SAFE
  }

  type SafeInt = x: int | IsSafe(x)

  function ToNumber(x: int): Result<SafeInt> {
    if IsSafe(x) then Success(x) else Failure(UnsafeNumber)
  }

  function Abs(x: int): nat {
    if x < 0 then -x else x
  }

  function Max(x: int, y: int): int {
    if x > y then x else y
  }

  function Min(x: int, y: int): int {
    if x < y then x else y
  }

  /** -1 for a negative number and 1 otherwise: zero counts as positive. */
  function Sign(x: int): int {
    if x < 0 then -1 else 1
  }

  /** How often `b` goes into `a`. */
  function Quot(a: nat, b: nat): nat
    requires b != 0
  {
    if a < b then 0 else 1 + Quot(a - b, b)
  }

  /** What is left of `a` then. */
  function Rem(a: nat, b: nat): nat
    requires b != 0
  {
    if a < b then a else Rem(a - b, b)
  }

  /** Division truncating toward zero. */
  function Div(a: int, b: int): int
    requires b != 0
  {
    if (a < 0) == (b < 0) then Quot(Abs(a), Abs(b)) else 0 - Quot(Abs(a), Abs(b))
  }

  /** Remainder with the sign of the dividend. */
  function Mod(a: int, b: int): int
    requires b != 0
  {
    if a < 0 then 0 - Rem(Abs(a), Abs(b)) else Rem(Abs(a), Abs(b))
  }

  lemma MulMono(x: int, y: int, k: int)
    requires x <= y && 0 <= k
    ensures x * k <= y * k
  {
  }

  lemma {:induction false} QuotRem(a: nat, b: nat)
    requires b != 0
    ensures a == Quot(a, b) * b + Rem(a, b)
    ensures Rem(a, b) < b
    decreases a
  {
    if b <= a {
      QuotRem(a - b, b);
      assert Quot(a, b) * b == Quot(a - b, b) * b + b;
    }
  }

  lemma SameQuotient(q: int, r: int, q': int, r': int, b: int)
    requires 0 < b && 0 <= r < b && 0 <= r' < b
    requires q * b + r == q' * b + r'
    ensures q == q' && r == r'
  {
    OrderFromProducts(q, q', b);
    OrderFromProducts(q', q, b);
  }

  /** The two are the quotient and remainder of whole number division. */
  lemma QuotIsQuotient(a: nat, b: nat)
    requires b != 0
    ensures Quot(a, b) == a / b && Rem(a, b) == a % b
  {
    QuotRem(a, b);
    assert a == b * (a / b) + a % b;
    SameQuotient(Quot(a, b), Rem(a, b), a / b, a % b, b);
  }

  /** A multiple leaves no remainder, and only a multiple does. */
  lemma ModOfMultiple(q: int, b: int)
    requires 0 < b
    ensures Mod(q * b, b) == 0
  {
    QuotRem(Abs(q * b), b);
    var n := if q * b < 0 then -q else q;
    NegMul(q, b);
    SameQuotient(Quot(Abs(q * b), b), Rem(Abs(q * b), b), n, 0, b);
  }

  lemma DivMod(a: int, b: int)
    requires 0 < b
    ensures a == Div(a, b) * b + Mod(a, b)
  {
    QuotRem(Abs(a), b);
    NegMul(Quot(Abs(a), b), b);
  }

  lemma NegMul(q: int, b: int)
    ensures (-q) * b == -(q * b)
  {
  }

  /** For a positive divisor, `Div` is the quotient whose remainder is smaller than the divisor
      and has the sign of the dividend. */
  lemma DivBounds(a: int, b: int)
    requires 0 < b
    ensures 0 <= a ==> 0 <= Div(a, b) && 0 <= a - Div(a, b) * b < b
    ensures a <= 0 ==> Div(a, b) <= 0 && -b < a - Div(a, b) * b <= 0
  {
    QuotRem(Abs(a), b);
    if a < 0 {
      NegMul(Quot(Abs(a), b), b);
    }
  }

  /** `quotient` is `n / d`, cut toward zero. */
  predicate Truncates(quotient: int, n: int, d: int) {
    && (n >= 0 ==> quotient >= 0 && quotient * d <= n < (quotient + 1) * d)
    && (n <= 0 ==> quotient <= 0 && (quotient - 1) * d < n <= quotient * d)
  }

  lemma DivTruncates(n: int, d: int)
    requires 0 < d
    ensures Truncates(Div(n, d), n, d)
  {
    DivBounds(n, d);
    hide Div;
    var q := Div(n, d);
    assert (q + 1) * d == q * d + d && (q - 1) * d == q * d - d;
  }

  lemma DivUnique(a: int, b: int, q: int)
    requires 0 < b
    requires 0 <= a ==> 0 <= a - q * b < b
    requires a <= 0 ==> -b < a - q * b <= 0
    ensures Div(a, b) == q
  {
    DivBounds(a, b);
    var d := Div(a, b);
    assert -b < (d - q) * b < b by {
      assert (d - q) * b == d * b - q * b;
    }
    if d > q {
      MulMono(1, d - q, b);
    } else if d < q {
      MulMono(d - q, -1, b);
    }
  }

  lemma OrderFromProducts(x: int, y: int, b: int)
    requires 0 < b
    requires x * b < y * b + b
    ensures x <= y
  {
    assert (y + 1) * b == y * b + b;
    if y < x {
      MulMono(y + 1, x, b);
    }
  }

  lemma DivMono(a: int, a': int, b: int)
    requires 0 < b && a <= a'
    ensures Div(a, b) <= Div(a', b)
  {
    DivBounds(a, b);
    DivBounds(a', b);
    if !(a <= 0 <= a') {
      OrderFromProducts(Div(a, b), Div(a', b), b);
    }
  }

  lemma DivNegDividend(a: int, b: int)
    requires 0 < b
    ensures Div(-a, b) == -Div(a, b)
  {
    DivBounds(a, b);
    assert (-Div(a, b)) * b == -(Div(a, b) * b);
    DivUnique(-a, b, -Div(a, b));
  }

  lemma DivNegDivisor(a: int, b: int)
    requires 0 < b
    ensures Div(a, -b) == -Div(a, b)
  {
    assert Abs(-b) == Abs(b);
    if a == 0 {
      DivUnique(0, b, 0);
    }
  }

  lemma ScaleRemainder(a: int, b: int, q: int, k: int)
    ensures a * k - q * (b * k) == (a - q * b) * k
  {
    calc {
      (a - q * b) * k;
      a * k - (q * b) * k;
      { assert (q * b) * k == q * (b * k); }
      a * k - q * (b * k);
    }
  }

  lemma MulSign(a: int, k: int)
    requires 0 < k
    ensures 0 < a ==> 0 < a * k
    ensures a < 0 ==> a * k < 0
    ensures a == 0 ==> a * k == 0
  {
  }

  /** A common positive factor of dividend and divisor does not change the quotient. */
  lemma DivCancel(a: int, b: int, k: int)
    requires 0 < b && 0 < k
    ensures 0 < b * k
    ensures Div(a * k, b * k) == Div(a, b)
  {
    hide Div, Quot, Rem;
    DivBounds(a, b);
    MulSign(a, k);
    MulSign(b, k);
    var q := Div(a, b);
    var r := a - q * b;
    ScaleRemainder(a, b, q, k);
    MulSign(r, k);
    MulSign(b - r, k);
    MulSign(b + r, k);
    assert (b - r) * k == b * k - r * k;
    assert (b + r) * k == b * k + r * k;
    DivUnique(a * k, b * k, q);
  }

  lemma DivMultiple(q: int, b: int)
    requires 0 < b
    ensures Div(q * b, b) == q
  {
    DivUnique(q * b, b, q);
  }

  /** Truncation never adds: the parts' quotients sum to at most the quotient of the sum. */
  lemma DivSuperadditive(a: nat, c: nat, b: int)
    requires 0 < b
    ensures Div(a, b) + Div(c, b) <= Div(a + c, b)
  {
    DivBounds(a, b);
    DivBounds(c, b);
    DivBounds(a + c, b);
    SumBelow(Div(a, b), Div(c, b), Div(a + c, b), a, c, b);
  }

  lemma SumBelow(x: int, y: int, z: int, a: int, c: int, b: int)
    requires 0 < b
    requires x * b <= a && y * b <= c && a + c < z * b + b
    ensures x + y <= z
  {
    assert (x + y) * b == x * b + y * b;
    OrderFromProducts(x + y, z, b);
  }

  /** `x * n / d` for `0 <= n <= d` stays between zero and `x`. */
  lemma DivFraction(x: int, n: int, d: int)
    requires 0 <= n <= d && 0 < d
    ensures 0 <= x ==> 0 <= Div(x * n, d) <= x
    ensures x <= 0 ==> x <= Div(x * n, d) <= 0
  {
    DivMultiple(x, d);
    DivMultiple(0, d);
    if 0 <= x {
      MulMono(n, d, x);
      assert 0 * d <= x * n <= x * d;
      DivMono(x * n, x * d, d);
      DivMono(0, x * n, d);
    }
    if x <= 0 {
      MulMono(n, d, -x);
      assert x * d <= x * n <= 0 by {
        assert n * -x == -(x * n) && d * -x == -(x * d);
      }
      DivMono(x * d, x * n, d);
      DivMono(x * n, 0, d);
    }
  }

  function Pow10(n: nat): (r: nat)
    ensures 1 <= r
  {
    if n == 0 then 1 else 10 * Pow10(n - 1)
  }

  lemma {:induction false} Pow10Add(m: nat, n: nat)
    ensures Pow10(m + n) == Pow10(m) * Pow10(n)
  {
    if m != 0 {
      Pow10Add(m - 1, n);
      assert Pow10(m + n) == 10 * Pow10(m - 1 + n);
      assert Pow10(m) * Pow10(n) == 10 * (Pow10(m - 1) * Pow10(n));
    }
  }
}
