/** Integer arithmetic carried out in IEEE 754 doubles, as the compiled JavaScript functions do it. */
module JavaScriptNumbers {
  import opened Values
  import opened Plans
  import Engine

  const TWO_53: int := 0x20_0000_0000_0000
  const MAX_SAFE: int := TWO_53 - 1

  predicate IsSafe(n: int) {
    -MAX_SAFE <= n <= MAX_SAFE
  }

  // ----- binary64, without the ends of its exponent range -----

  predicate IsPowerOfTwo(s: int) {
    s == 1 || (s > 1 && s % 2 == 0 && IsPowerOfTwo(s / 2))
  }

  /** A significand of 53 bits, scaled by a power of two. */
  ghost predicate IsDouble(x: real) {
    exists m, s :: Represents(m, s, x)
  }

  ghost predicate Represents(m: int, s: int, x: real) {
    && -TWO_53 <= m <= TWO_53 && IsPowerOfTwo(s)
    && (x == m as real * s as real || x * s as real == m as real)
  }

  function Distance(x: real, y: real): real {
    if x < y then y - x else x - y
  }

  /** r is a double nearest to x. Ties may go either way; IEEE 754 section 4.3.1 sends them to the even significand. */
  ghost predicate Nearest(x: real, r: real) {
    IsDouble(r) && forall d :: IsDouble(d) ==> Distance(x, r) <= Distance(x, d)
  }

  ghost predicate Rounding(fl: real -> real) {
    forall x :: Nearest(x, fl(x))
  }

  // ----- the helpers -----

  function Trunc(x: real): int {
    if x < 0.0 then -(-x).Floor else x.Floor
  }

  /** `checkedInt`: None is the bail. */
  function CheckedInt(x: real): Option<int> {
    if x == x.Floor as real && IsSafe(x.Floor) then Some(x.Floor) else None
  }

  function AddInt(fl: real -> real, a: int, b: int): Option<int> {
    CheckedInt(fl((a + b) as real))
  }

  function SubInt(fl: real -> real, a: int, b: int): Option<int> {
    CheckedInt(fl((a - b) as real))
  }

  function MulInt(fl: real -> real, a: int, b: int): Option<int> {
    CheckedInt(fl((a * b) as real))
  }

  function DivInt(fl: real -> real, a: int, b: int): Option<int> {
    if b == 0 then None else CheckedInt(Trunc(fl(a as real / b as real)) as real)
  }

  /** `a % b` on doubles is exact: the remainder of the truncated quotient, with the sign of the dividend. */
  function Remainder(a: int, b: int): int
    requires b != 0
  {
    a - b * Engine.TruncDiv(a, b)
  }

  function RemInt(a: int, b: int): Option<int> {
    if b == 0 then None else CheckedInt(Remainder(a, b) as real)
  }

  function NegInt(a: int): Option<int> {
    CheckedInt(-(a as real))
  }

  // ----- rounding an integer -----

  lemma {:induction false} IntegerIsDouble(n: int)
    requires -TWO_53 <= n <= TWO_53
    ensures IsDouble(n as real)
  {
    assert Represents(n, 1, n as real);
  }

  /** Integers up to 2^53 are exact, and rounding never crosses 2^53 from outside. */
  lemma {:induction false} RoundedInteger(fl: real -> real, n: int)
    requires Rounding(fl)
    ensures CheckedInt(fl(n as real)) == if IsSafe(n) then Some(n) else None
  {
    var x, r := n as real, fl(n as real);
    assert Nearest(x, r);
    if -TWO_53 <= n <= TWO_53 {
      IntegerIsDouble(n);
      assert Distance(x, r) <= Distance(x, x);
      assert r == x;
    } else if n > TWO_53 {
      IntegerIsDouble(TWO_53);
      assert Distance(x, r) <= Distance(x, TWO_53 as real);
      assert r >= TWO_53 as real;
    } else {
      IntegerIsDouble(-TWO_53);
      assert Distance(x, r) <= Distance(x, (-TWO_53) as real);
      assert r <= (-TWO_53) as real;
    }
  }

  /** Sums, differences and products of safe integers are exact, or the call bails: exactly when they are not safe. */
  lemma {:induction false} ExactOrBails(fl: real -> real, a: int, b: int)
    requires Rounding(fl)
    ensures AddInt(fl, a, b) == if IsSafe(a + b) then Some(a + b) else None
    ensures SubInt(fl, a, b) == if IsSafe(a - b) then Some(a - b) else None
    ensures MulInt(fl, a, b) == if IsSafe(a * b) then Some(a * b) else None
  {
    RoundedInteger(fl, a + b);
    RoundedInteger(fl, a - b);
    RoundedInteger(fl, a * b);
  }

  // ----- rounding a quotient -----

  /** A power of two that scales c to 53 bits. */
  lemma {:induction false} Scale(c: int, s: int) returns (t: int)
    requires 0 < c && IsPowerOfTwo(s) && c * s <= TWO_53
    ensures IsPowerOfTwo(t) && TWO_53 < 2 * (c * t) <= 2 * TWO_53
    decreases TWO_53 - c * s
  {
    if TWO_53 < 2 * (c * s) {
      t := s;
    } else {
      assert (2 * s) / 2 == s && (2 * s) % 2 == 0;
      assert c * (2 * s) == 2 * (c * s) && c * s > 0;
      t := Scale(c, 2 * s);
    }
  }

  /** Above d, the distance to d is smaller than the distance to c, because the divisor is too small for more digits. */
  lemma {:induction false} CloserBelow(a: int, b: int, c: int, s: int)
    requires 0 < a <= MAX_SAFE && 0 < b && a < b * c && 0 < s && TWO_53 < 2 * (c * s)
    requires a * s > b * (c * s - 1)
    ensures b < 2 * s
    ensures 2 * (a * s) < b * (2 * (c * s) - 1)
  {
    assert b * (c * s - 1) >= b * (TWO_53 / 2) by { Monotone(b, TWO_53 / 2, c * s - 1); }
    assert a * s <= MAX_SAFE * s by { Monotone(s, a, MAX_SAFE); }
    assert b < 2 * s;
    assert (b * c - a) * s >= s by { Monotone(s, 1, b * c - a); }
    assert (b * c - a) * s == b * (c * s) - a * s;
  }

  lemma {:induction false} Monotone(k: int, x: int, y: int)
    requires 0 <= k && x <= y
    ensures k * x <= k * y && x * k <= y * k
  {
  }

  /** The quotient of two positive safe integers never rounds up to the next integer: the double just below that
      integer is nearer. */
  lemma {:induction false} NeverRoundsUp(fl: real -> real, a: int, b: int, c: int)
    requires Rounding(fl) && 0 < a <= MAX_SAFE && 0 < b <= MAX_SAFE && a < b * c && c <= TWO_53
    ensures fl(a as real / b as real) < c as real
  {
    var q, r := a as real / b as real, fl(a as real / b as real);
    assert Nearest(q, r);
    assert c > 0 by {
      if c <= 0 { Monotone(b, c, 0); }
    }
    var s := Scale(c, 1);
    assert s > 0;
    var d := c as real - 1.0 / s as real;
    BelowIsDouble(c, s, d);
    assert Distance(q, r) <= Distance(q, d);
    Quotient(a, b, c, q);
    if q > d {
      Scaled(a, b, c, s, q, d);
      CloserBelow(a, b, c, s);
      ScaledBack(a, b, c, s, q, d);
    }
  }

  lemma {:induction false} BelowIsDouble(c: int, s: int, d: real)
    requires 0 < c && IsPowerOfTwo(s) && c * s <= TWO_53 && d == c as real - 1.0 / s as real
    ensures IsDouble(d)
  {
    assert d * s as real == (c * s - 1) as real;
    assert c * s > 0;
    assert Represents(c * s - 1, s, d);
  }

  lemma {:induction false} Quotient(a: int, b: int, c: int, q: real)
    requires 0 < b && a < b * c && q == a as real / b as real
    ensures q < c as real
  {
    assert q * b as real == a as real;
  }

  lemma {:induction false} Scaled(a: int, b: int, c: int, s: int, q: real, d: real)
    requires 0 < b && 0 < s && q == a as real / b as real && d == c as real - 1.0 / s as real && q > d
    ensures a * s > b * (c * s - 1)
  {
    var bs := b as real * s as real;
    assert q * bs == (a * s) as real;
    assert d * bs == (b * (c * s - 1)) as real;
    assert q * bs > d * bs;
  }

  lemma {:induction false} ScaledBack(a: int, b: int, c: int, s: int, q: real, d: real)
    requires 0 < b && 0 < s && q == a as real / b as real && d == c as real - 1.0 / s as real
    requires 2 * (a * s) < b * (2 * (c * s) - 1)
    ensures q - d < c as real - q
  {
    var bs := b as real * s as real;
    assert q * bs == (a * s) as real;
    assert (2.0 * c as real - 1.0 / s as real) * bs == (b * (2 * (c * s) - 1)) as real;
    assert (2.0 * q) * bs < (2.0 * c as real - 1.0 / s as real) * bs;
  }

  /** Rounding is monotone at integers. */
  lemma {:induction false} AtLeast(fl: real -> real, x: real, n: int)
    requires Rounding(fl) && -TWO_53 <= n <= TWO_53 && n as real <= x
    ensures n as real <= fl(x)
  {
    IntegerIsDouble(n);
    assert Nearest(x, fl(x));
    assert Distance(x, fl(x)) <= Distance(x, n as real);
  }

  lemma {:induction false} PositiveQuotient(fl: real -> real, a: int, b: int)
    requires Rounding(fl) && 0 <= a <= MAX_SAFE && 0 < b <= MAX_SAFE
    ensures Trunc(fl(a as real / b as real)) == a / b && fl(a as real / b as real) >= 0.0
  {
    var q, n := a as real / b as real, a / b;
    assert b * n <= a < b * (n + 1) && 0 <= n <= a by { DivBounds(a, b); }
    assert n as real <= q by {
      assert q * b as real == a as real;
      NonNegative(q - n as real, b as real);
    }
    AtLeast(fl, q, n);
    if a == 0 {
      AtMostZero(fl);
    } else {
      NeverRoundsUp(fl, a, b, n + 1);
    }
  }

  lemma {:induction false} NonNegative(x: real, k: real)
    requires k > 0.0 && x * k >= 0.0
    ensures x >= 0.0
  {
  }

  lemma {:induction false} DivBounds(a: int, b: int)
    requires 0 <= a && 0 < b
    ensures b * (a / b) <= a < b * (a / b + 1) && 0 <= a / b <= a
  {
    var n := a / b;
    assert a == b * n + a % b;
    assert n <= b * n by { Monotone(n, 1, b); }
  }

  lemma {:induction false} AtMostZero(fl: real -> real)
    requires Rounding(fl)
    ensures fl(0.0) == 0.0
  {
    IntegerIsDouble(0);
    assert Nearest(0.0, fl(0.0));
    assert Distance(0.0, fl(0.0)) <= Distance(0.0, 0.0);
  }

  /** Rounding seen in a mirror. */
  function Mirror(fl: real -> real): real -> real {
    x => -fl(-x)
  }

  lemma {:induction false} MirrorRounds(fl: real -> real)
    requires Rounding(fl)
    ensures Rounding(Mirror(fl))
  {
    forall x ensures Nearest(x, Mirror(fl)(x)) {
      assert Nearest(-x, fl(-x));
      MirrorNearest(x, fl(-x));
    }
  }

  lemma {:induction false} MirrorNearest(x: real, r: real)
    requires Nearest(-x, r)
    ensures Nearest(x, -r)
  {
    hide IsDouble;
    MirroredDouble(r);
    forall d | IsDouble(d) ensures Distance(x, -r) <= Distance(x, d) {
      MirroredDouble(d);
      assert Distance(-x, r) <= Distance(-x, -d);
    }
  }

  lemma {:induction false} MirroredDouble(x: real)
    requires IsDouble(x)
    ensures IsDouble(-x)
  {
    var m, s :| Represents(m, s, x);
    assert Represents(-m, s, -x);
  }

  /** The truncated quotient is exact for all safe integers, although the division itself rounds. */
  lemma {:induction false} DivisionIsExact(fl: real -> real, a: int, b: int)
    requires Rounding(fl) && IsSafe(a) && IsSafe(b)
    ensures DivInt(fl, a, b) == if b == 0 then None else Some(Engine.TruncDiv(a, b))
  {
    if b != 0 {
      var x, y := Engine.Abs(a), Engine.Abs(b);
      var n: int := x / y;
      DivBounds(x, y);
      hide Rounding, Trunc, CheckedInt;
      Signs(a, b);
      assert Engine.TruncDiv(a, b) == if (a < 0) == (b < 0) then n else -n;
      if (a < 0) == (b < 0) {
        PositiveQuotient(fl, x, y);
        WholeIsChecked(n);
      } else {
        NegativeQuotient(fl, x, y);
        WholeIsChecked(-n);
      }
    }
  }

  lemma {:induction false} WholeIsChecked(n: int)
    requires IsSafe(n)
    ensures CheckedInt(n as real) == Some(n)
  {
  }

  lemma {:induction false} NegativeQuotient(fl: real -> real, x: int, y: int)
    requires Rounding(fl) && 0 <= x <= MAX_SAFE && 0 < y <= MAX_SAFE
    ensures Trunc(fl(-(x as real / y as real))) == -(x / y)
  {
    var q := x as real / y as real;
    MirrorRounds(fl);
    PositiveQuotient(Mirror(fl), x, y);
    TruncMirror(fl(-q));
  }

  lemma {:induction false} TruncMirror(x: real)
    ensures Trunc(-x) == -Trunc(x)
  {
  }

  lemma {:induction false} Signs(a: int, b: int)
    requires b != 0
    ensures var q := Engine.Abs(a) as real / Engine.Abs(b) as real;
            a as real / b as real == if (a < 0) == (b < 0) then q else -q
  {
    var q := Engine.Abs(a) as real / Engine.Abs(b) as real;
    assert q * Engine.Abs(b) as real == Engine.Abs(a) as real;
    Divided(if (a < 0) == (b < 0) then q else -q, a as real, b as real);
  }

  lemma {:induction false} Divided(r: real, a: real, b: real)
    requires b != 0.0 && r * b == a
    ensures a / b == r
  {
  }

  /** Remainders are exact and safe. */
  lemma {:induction false} RemainderIsExact(a: int, b: int)
    requires IsSafe(a) && IsSafe(b)
    ensures RemInt(a, b) == if b == 0 then None else Some(a - b * Engine.TruncDiv(a, b))
  {
    if b != 0 {
      DivBounds(Engine.Abs(a), Engine.Abs(b));
    }
  }

  /** The five operators, by name. */
  function ArithmeticInt(fl: real -> real, op: Arithmetic, a: int, b: int): Option<int> {
    match op
    case Add => AddInt(fl, a, b)
    case Sub => SubInt(fl, a, b)
    case Mul => MulInt(fl, a, b)
    case Div => DivInt(fl, a, b)
    case Rem => RemInt(a, b)
  }

  /** The exact result of an operator on integers: truncating division, and no result for division by zero. */
  function Exact(op: Arithmetic, a: int, b: int): Option<int> {
    match op
    case Add => Some(a + b)
    case Sub => Some(a - b)
    case Mul => Some(a * b)
    case Div => if b == 0 then None else Some(Engine.TruncDiv(a, b))
    case Rem => if b == 0 then None else Some(a - b * Engine.TruncDiv(a, b))
  }

  /** Arithmetic on safe integers under any nearest rounding: the result is exact, and it is given exactly when it is
      safe. Whenever it is given, it is the CEL result on 64-bit integers. */
  lemma {:induction false} ArithmeticIsExact(fl: real -> real, op: Arithmetic, a: int, b: int)
    requires Rounding(fl) && IsSafe(a) && IsSafe(b)
    ensures ArithmeticInt(fl, op, a, b)
         == (match Exact(op, a, b) case Some(n) => if IsSafe(n) then Some(n) else None case None => None)
    ensures match ArithmeticInt(fl, op, a, b)
            case Some(n) => Engine.Arithmetics(op, VInt(a), VInt(b)) == Engine.Ok(VInt(n))
            case None => true
  {
    ExactOrBails(fl, a, b);
    DivisionIsExact(fl, a, b);
    RemainderIsExact(a, b);
    hide Rounding, AddInt, SubInt, MulInt, DivInt, RemInt;
    if b != 0 {
      QuotientIsSafe(a, b);
    }
  }

  lemma {:induction false} QuotientIsSafe(a: int, b: int)
    requires IsSafe(a) && IsSafe(b) && b != 0
    ensures IsSafe(Engine.TruncDiv(a, b)) && IsSafe(a - b * Engine.TruncDiv(a, b))
  {
    DivBounds(Engine.Abs(a), Engine.Abs(b));
  }

  lemma {:induction false} NegationIsExact(a: int)
    requires IsSafe(a)
    ensures NegInt(a) == Some(-a) && Engine.Negated(VInt(a)) == Engine.Ok(VInt(-a))
  {
    assert -(a as real) == (-a) as real;
    WholeIsChecked(-a);
  }
}
