/** Two's complement numbers of any width, and what the target machine computes with them. */
module TargetArith {

  import opened Wrappers

  /** Operators that the C front end folds. */
  datatype Op = Mul | Div | Rem | Add | Sub | Shl | Shr | Lt | Gt | Le | Ge | Eq | Ne | And | Or | Xor

  function Pow2(n: nat): (p: int)
    ensures 0 < p
  {
    if n == 0 then 1 else 2 * Pow2(n - 1)
  }

  /** The k-bit pattern of a number. */
  function Pat(z: int, k: nat): (u: nat)
    ensures u < Pow2(k)
  {
    z % Pow2(k)
  }

  /** The signed reading of a k-bit pattern. */
  function Signed(u: nat, k: nat): int
    requires 0 < k
  {
    if u < Pow2(k - 1) then u else u - Pow2(k)
  }

  /** The number of a k-bit type that z wraps around to. */
  function Wrap(z: int, k: nat, uns: bool): int
    requires 0 < k
  {
    if uns then Pat(z, k) else Signed(Pat(z, k), k)
  }

  predicate InRange(x: int, k: nat, uns: bool)
    requires 0 < k
  {
    if uns then 0 <= x < Pow2(k) else -Pow2(k - 1) <= x < Pow2(k - 1)
  }

  /** Division and remainder as C has them: the quotient is cut towards zero. */
  function TruncDiv(x: int, y: int): int
    requires y != 0
  {
    if x >= 0 then x / y else -((-x) / y)
  }

  function TruncRem(x: int, y: int): int
    requires y != 0
  {
    x - TruncDiv(x, y) * y
  }

  function Bit(op: Op, a: nat, b: nat): (c: nat)
    requires op.And? || op.Or? || op.Xor?
    ensures c < 2
  {
    var p, q := a % 2, b % 2;
    match op
    case And => if p == 1 && q == 1 then 1 else 0
    case Or => if p == 1 || q == 1 then 1 else 0
    case Xor => if p == q then 0 else 1
  }

  /** A bit operation on the low k bits. */
  function Bits(op: Op, a: nat, b: nat, k: nat): (c: nat)
    requires op.And? || op.Or? || op.Xor?
    ensures c < Pow2(k)
  {
    if k == 0 then 0 else Bit(op, a, b) + 2 * Bits(op, a / 2, b / 2, k - 1)
  }

  predicate Compare(op: Op, x: int, y: int)
  {
    match op
    case Lt => x < y
    case Gt => x > y
    case Le => x <= y
    case Ge => x >= y
    case Eq => x == y
    case _ => x != y
  }

  /** What x op y is in a k-bit type on the target; None where C leaves it undefined for lack of any
      sensible result: division by zero, a quotient out of range, a shift count that is not below the
      width. */
  function Target(op: Op, x: int, y: int, k: nat, uns: bool): (r: Option<int>)
    requires 0 < k
  {
    match op
    case Mul => Some(Wrap(x * y, k, uns))
    case Add => Some(Wrap(x + y, k, uns))
    case Sub => Some(Wrap(x - y, k, uns))
    case Div => if y == 0 || (!uns && x == -Pow2(k - 1) && y == -1) then None else Some(TruncDiv(x, y))
    case Rem => if y == 0 || (!uns && x == -Pow2(k - 1) && y == -1) then None else Some(TruncRem(x, y))
    case Shl => if 0 <= y < k then Some(Wrap(x * Pow2(y), k, uns)) else None
    case Shr => if 0 <= y < k then Some(x / Pow2(y)) else None
    case And => Some(Wrap(Bits(op, Pat(x, k), Pat(y, k), k), k, uns))
    case Or => Some(Wrap(Bits(op, Pat(x, k), Pat(y, k), k), k, uns))
    case Xor => Some(Wrap(Bits(op, Pat(x, k), Pat(y, k), k), k, uns))
    case _ => Some(if Compare(op, x, y) then 1 else 0)
  }

  // ---------- remainders ----------

  /** A multiple of m that is not zero is at least m away from it. */
  lemma Multiple(d: int, m: int)
    requires 0 <= m
    ensures 1 <= d ==> m <= d * m
    ensures d <= -1 ==> d * m <= -m
    ensures 0 <= d ==> 0 <= d * m
  {
    if 1 <= d { assert d * m == m + (d - 1) * m; }
    if d <= -1 { assert d * m == (d + 1) * m - m; }
  }

  lemma Distribute(a: int, b: int, m: int)
    ensures (a + b) * m == a * m + b * m && (a - b) * m == a * m - b * m
    ensures m * (a + b) == a * m + b * m
  {
  }

  lemma Associate(a: int, b: int, m: int)
    ensures (a * b) * m == a * (b * m) && (a * m) * b == (a * b) * m
  {
  }

  lemma ModUnique(z: int, q: int, r: int, m: int)
    requires 0 < m && z == q * m + r && 0 <= r < m
    ensures z % m == r && z / m == q
  {
    var p, d := z / m, z / m - q;
    Distribute(p, q, m);
    assert z == p * m + z % m;
    assert d * m == r - z % m;
    Multiple(d, m);
  }

  lemma ModShift(z: int, q: int, m: int)
    requires 0 < m
    ensures (z + q * m) % m == z % m
  {
    var d := z / m;
    assert z == d * m + z % m;
    Distribute(d, q, m);
    ModUnique(z + q * m, d + q, z % m, m);
  }

  lemma {:induction false} PowAdd(a: nat, b: nat)
    ensures Pow2(a + b) == Pow2(a) * Pow2(b)
  {
    if a > 0 {
      PowAdd(a - 1, b);
      Associate(2, Pow2(a - 1), Pow2(b));
    }
  }

  /** Wrapping at a greater width first changes nothing. */
  lemma PatPat(z: int, j: nat, k: nat)
    requires k <= j
    ensures Pat(Pat(z, j), k) == Pat(z, k)
  {
    var q := z / Pow2(j);
    PowAdd(j - k, k);
    assert z == q * Pow2(j) + Pat(z, j);
    Associate(q, Pow2(j - k), Pow2(k));
    ModShift(Pat(z, j), q * Pow2(j - k), Pow2(k));
  }

  lemma PatSame(x: int, y: int, q: int, k: nat)
    requires x == y + q * Pow2(k)
    ensures Pat(x, k) == Pat(y, k)
  {
    ModShift(y, q, Pow2(k));
  }

  lemma PatSmall(x: nat, k: nat)
    requires x < Pow2(k)
    ensures Pat(x, k) == x
  {
    ModUnique(x, 0, x, Pow2(k));
  }

  lemma PatDiffer(x: int, u: int, k: nat) returns (q: int)
    requires Pat(x, k) == Pat(u, k)
    ensures x == u + q * Pow2(k)
  {
    var m := Pow2(k);
    q := x / m - u / m;
    assert x == x / m * m + x % m && u == u / m * m + u % m;
    Distribute(x / m, u / m, m);
  }

  /** The pattern of a sum, difference or product depends only on the patterns. */
  lemma PatSum(x: int, y: int, u: int, v: int, k: nat)
    requires Pat(x, k) == Pat(u, k) && Pat(y, k) == Pat(v, k)
    ensures Pat(x + y, k) == Pat(u + v, k)
    ensures Pat(x - y, k) == Pat(u - v, k)
  {
    var p := PatDiffer(x, u, k);
    var q := PatDiffer(y, v, k);
    Distribute(p, q, Pow2(k));
    PatSame(x + y, u + v, p + q, k);
    PatSame(x - y, u - v, p - q, k);
  }

  lemma PatTimes(x: int, u: int, y: int, k: nat)
    requires Pat(x, k) == Pat(u, k)
    ensures Pat(x * y, k) == Pat(u * y, k) && Pat(y * x, k) == Pat(y * u, k)
  {
    var m := Pow2(k);
    var p := PatDiffer(x, u, k);
    Distribute(u, p * m, y);
    Associate(p, m, y);
    Associate(p, y, m);
    PatSame(x * y, u * y, p * y, k);
  }

  lemma PatProduct(x: int, y: int, u: int, v: int, k: nat)
    requires Pat(x, k) == Pat(u, k) && Pat(y, k) == Pat(v, k)
    ensures Pat(x * y, k) == Pat(u * v, k)
  {
    PatTimes(x, u, y, k);
    PatTimes(y, v, u, k);
  }

  // ---------- a type's numbers ----------

  /** Wrapping lands in the type and keeps the pattern. */
  lemma WrapInRange(z: int, k: nat, uns: bool)
    requires 0 < k
    ensures InRange(Wrap(z, k, uns), k, uns) && Pat(Wrap(z, k, uns), k) == Pat(z, k)
  {
    PatPat(z, k, k);
    PatSame(Pat(z, k) - Pow2(k), Pat(z, k), -1, k);
  }

  /** A number of the type is its own wrapping. */
  lemma WrapSame(x: int, k: nat, uns: bool)
    requires 0 < k && InRange(x, k, uns)
    ensures Wrap(x, k, uns) == x
  {
    if x < 0 {
      ModUnique(x, -1, x + Pow2(k), Pow2(k));
    } else {
      PatSmall(x, k);
    }
  }

  /** Every result is a number of the type again. */
  lemma TargetInRange(op: Op, x: int, y: int, k: nat, uns: bool)
    requires 0 < k && InRange(x, k, uns) && (op.Shl? || op.Shr? || InRange(y, k, uns))
    requires Target(op, x, y, k, uns).Some?
    ensures InRange(Target(op, x, y, k, uns).value, k, uns) || (k == 1 && !uns)
  {
    WrapInRange(x * y, k, uns);
    WrapInRange(x + y, k, uns);
    WrapInRange(x - y, k, uns);
    assert Pow2(1) == 2;
    assert 2 <= k ==> 2 <= Pow2(k - 1);
    match op
    case Div => DivInRange(x, y, k, uns);
    case Rem => RemBounds(x, y);
    case Shl => WrapInRange(x * Pow2(y), k, uns);
    case Shr => FloorShrinks(x, Pow2(y));
    case And => WrapInRange(Bits(op, Pat(x, k), Pat(y, k), k), k, uns);
    case Or => WrapInRange(Bits(op, Pat(x, k), Pat(y, k), k), k, uns);
    case Xor => WrapInRange(Bits(op, Pat(x, k), Pat(y, k), k), k, uns);
    case _ =>
  }

  lemma FloorShrinks(x: int, p: int)
    requires 0 < p
    ensures x >= 0 ==> 0 <= x / p <= x
    ensures x < 0 ==> x <= x / p < 0
    ensures x / p * p <= x < x / p * p + p
  {
    var q := x / p;
    assert x == q * p + x % p;
    Multiple(q, p);
    Distribute(p, -1, q);
    assert q * (p - 1) == q * p - q;
    if q < 0 {
      Multiple(-q, p - 1);
      assert (-q) * (p - 1) == -(q * (p - 1));
    } else {
      Multiple(q, p - 1);
    }
  }

  /** A quotient is smaller than its dividend unless the divisor is one. */
  lemma QuotientShrinks(x: int, p: int)
    requires 0 <= x && 0 < p
    ensures 2 <= p && 0 < x ==> x / p < x
  {
    FloorShrinks(x, p);
    Multiple(p - 1, x);
    Distribute(p, -1, x);
  }

  lemma NegativeDivisor(x: int, p: int)
    requires 0 < p
    ensures x / (-p) == -(x / p) && x % (-p) == x % p
  {
    var q, r := x / (-p), x % (-p);
    assert x == q * (-p) + r;
    assert q * (-p) == (-q) * p;
    ModUnique(x, -q, r, p);
  }

  lemma DivInRange(x: int, y: int, k: nat, uns: bool)
    requires 0 < k && InRange(x, k, uns) && InRange(y, k, uns) && y != 0
    requires uns || x != -Pow2(k - 1) || y != -1
    ensures InRange(TruncDiv(x, y), k, uns)
  {
    var a, p := if x >= 0 then x else -x, if y > 0 then y else -y;
    NegativeDivisor(a, p);
    FloorShrinks(a, p);
    QuotientShrinks(a, p);
  }

  /** The remainder has the sign of the dividend and is smaller than the divisor. */
  lemma RemBounds(x: int, y: int)
    requires y != 0
    ensures x >= 0 ==> 0 <= TruncRem(x, y) < if y > 0 then y else -y
    ensures x <= 0 ==> (if y > 0 then -y else y) < TruncRem(x, y) <= 0
  {
    var a, p := if x >= 0 then x else -x, if y > 0 then y else -y;
    NegativeDivisor(a, p);
    FloorShrinks(a, p);
    assert (-(a / p)) * (-p) == a / p * p;
    assert (-(a / p)) * p == -(a / p * p) && (a / p) * (-p) == -(a / p * p);
  }

  // ---------- bit operations ----------

  /** The pattern of a number bit by bit. */
  lemma HalfPat(a: int, k: nat)
    ensures Pat(a, k + 1) == a % 2 + 2 * Pat(a / 2, k)
  {
    var m, h := Pow2(k), a / 2;
    var q := h / m;
    assert h == q * m + h % m;
    assert a == 2 * h + a % 2;
    Associate(q, 2, m);
    assert q * (2 * m) == 2 * (q * m);
    ModUnique(a, q, a % 2 + 2 * (h % m), 2 * m);
  }

  lemma BitsStep(op: Op, a: nat, b: nat, k: nat)
    requires (op.And? || op.Or? || op.Xor?) && 0 < k
    ensures Bits(op, a, b, k) == Bit(op, a, b) + 2 * Bits(op, a / 2, b / 2, k - 1)
  {
  }

  lemma BitSame(op: Op, a: nat, b: nat, c: nat, d: nat)
    requires (op.And? || op.Or? || op.Xor?) && a % 2 == c % 2 && b % 2 == d % 2
    ensures Bit(op, a, b) == Bit(op, c, d)
  {
  }

  lemma NoBits(op: Op, a: nat, b: nat, c: nat)
    requires op.And? || op.Or? || op.Xor?
    ensures Pat(c, 0) == 0 && Bits(op, a, b, 0) == 0
  {
    assert Pow2(0) == 1;
  }

  /** The low bits of a result depend on the low bits of the operands only. */
  lemma {:induction false} BitsLow(op: Op, a: nat, b: nat, j: nat, k: nat)
    requires (op.And? || op.Or? || op.Xor?) && k <= j
    ensures Pat(Bits(op, a, b, j), k) == Bits(op, Pat(a, k), Pat(b, k), k)
    decreases j
  {
    hide Pat, Bits, Bit, Pow2;
    if k == 0 {
      NoBits(op, Pat(a, k), Pat(b, k), Bits(op, a, b, j));
    } else {
      BitsLow(op, a / 2, b / 2, j - 1, k - 1);
      HalfPat(a, k - 1);
      HalfPat(b, k - 1);
      HalfPat(Bits(op, a, b, j), k - 1);
      BitsStep(op, a, b, j);
      BitsStep(op, Pat(a, k), Pat(b, k), k);
      BitSame(op, a, b, Pat(a, k), Pat(b, k));
    }
  }

  lemma NoMask()
    ensures Pow2(0) == 1
  {
  }

  lemma MaskStep(k: nat)
    requires 0 < k
    ensures (Pow2(k) - 1) / 2 == Pow2(k - 1) - 1 && (Pow2(k) - 1) % 2 == 1
  {
  }

  /** Masking with k ones takes the k-bit pattern. */
  lemma {:induction false} AndMask(a: nat, j: nat, k: nat)
    requires k <= j
    ensures Bits(And, a, Pow2(k) - 1, j) == Pat(a, k)
    decreases j
  {
    hide Pat, Bits, Pow2;
    if k == 0 {
      NoMask();
      AndZero(a, j);
      NoBits(And, 0, 0, a);
    } else {
      MaskStep(k);
      AndMask(a / 2, j - 1, k - 1);
      HalfPat(a, k - 1);
      BitsStep(And, a, Pow2(k) - 1, j);
    }
  }

  /** Masking with all but the k lowest ones takes the rest. */
  lemma {:induction false} AndHigh(a: nat, j: nat, k: nat)
    requires k <= j && a < Pow2(j)
    ensures Pow2(k) <= Pow2(j) && Bits(And, a, Pow2(j) - Pow2(k), j) == a - Pat(a, k)
    decreases j
  {
    if k == 0 {
      NoMask();
      AndMask(a, j, j);
      PatSmall(a, j);
      NoBits(And, 0, 0, a);
    } else {
      assert a / 2 < Pow2(j - 1);
      AndHigh(a / 2, j - 1, k - 1);
      HighStep(j, k);
      hide Pat, Bits, Pow2;
      HalfPat(a, k - 1);
      BitsStep(And, a, Pow2(j) - Pow2(k), j);
    }
  }

  lemma HighStep(j: nat, k: nat)
    requires 0 < k && 0 < j && Pow2(k - 1) <= Pow2(j - 1)
    ensures Pow2(k) <= Pow2(j) && (Pow2(j) - Pow2(k)) / 2 == Pow2(j - 1) - Pow2(k - 1) && (Pow2(j) - Pow2(k)) % 2 == 0
  {
  }

  lemma {:induction false} AndZero(a: nat, j: nat)
    ensures Bits(And, a, 0, j) == 0
    decreases j
  {
    if j > 0 {
      AndZero(a / 2, j - 1);
    }
  }

  /** Bit operations commute. */
  lemma {:induction false} BitsCommute(op: Op, a: nat, b: nat, k: nat)
    requires op.And? || op.Or? || op.Xor?
    ensures Bits(op, a, b, k) == Bits(op, b, a, k)
    decreases k
  {
    if k > 0 {
      BitsCommute(op, a / 2, b / 2, k - 1);
    }
  }

  // ---------- what the results are, apart from how they are computed ----------

  function Abs(z: int): nat { if z < 0 then -z else z }

  /** q is the quotient of x by y cut towards zero and r the remainder: they make up x, and the remainder is
      smaller than the divisor and has the sign of the dividend. */
  predicate Divided(x: int, y: int, q: int, r: int)
  {
    x == q * y + r && Abs(r) < Abs(y) && (r != 0 ==> (r < 0 <==> x < 0))
  }

  predicate Congruent(a: int, b: int, k: nat) { (a - b) % Pow2(k) == 0 }

  /** Bit i of a number in two's complement, however long. */
  predicate BitOf(z: int, i: nat)
    decreases i
  {
    if i == 0 then z % 2 == 1 else BitOf(z / 2, i - 1)
  }

  /** The number r is what x op y has to be in a k-bit type. */
  ghost predicate Means(op: Op, x: int, y: int, r: int, k: nat, uns: bool)
    requires 0 < k
  {
    match op
    case Mul => InRange(r, k, uns) && Congruent(r, x * y, k)
    case Add => InRange(r, k, uns) && Congruent(r, x + y, k)
    case Sub => InRange(r, k, uns) && Congruent(r, x - y, k)
    case Div => exists m :: Divided(x, y, r, m)
    case Rem => exists q :: Divided(x, y, q, r)
    case Shl => 0 <= y && InRange(r, k, uns) && Congruent(r, x * Pow2(y), k)
    case Shr => 0 <= y && r * Pow2(y) <= x < (r + 1) * Pow2(y)
    case And => InRange(r, k, uns) && forall i :: 0 <= i < k ==> (BitOf(r, i) <==> BitOf(x, i) && BitOf(y, i))
    case Or => InRange(r, k, uns) && forall i :: 0 <= i < k ==> (BitOf(r, i) <==> BitOf(x, i) || BitOf(y, i))
    case Xor => InRange(r, k, uns) && forall i :: 0 <= i < k ==> (BitOf(r, i) <==> BitOf(x, i) != BitOf(y, i))
    case Lt => r == if x < y then 1 else 0
    case Gt => r == if y < x then 1 else 0
    case Le => r == if y < x then 0 else 1
    case Ge => r == if x < y then 0 else 1
    case Eq => r == if x < y || y < x then 0 else 1
    case Ne => r == if x < y || y < x then 1 else 0
  }

  /** Quotient and remainder belong together. */
  lemma DivRem(x: int, y: int)
    requires y != 0
    ensures Divided(x, y, TruncDiv(x, y), TruncRem(x, y))
  {
    RemBounds(x, y);
  }

  lemma DividedOnce(x: int, y: int, q: int, r: int, q': int, r': int)
    requires Divided(x, y, q, r) && Divided(x, y, q', r')
    ensures q == q' && r == r'
  {
    var d := q - q';
    Distribute(q, q', y);
    assert d * y == r' - r;
    if d != 0 {
      Multiple(Abs(d), Abs(y));
      assert Abs(d) * Abs(y) == Abs(d * y) by {
        assert (-d) * y == -(d * y) && d * (-y) == -(d * y) && (-d) * (-y) == d * y;
      }
    }
  }

  lemma WrapCongruent(z: int, k: nat, uns: bool)
    requires 0 < k
    ensures InRange(Wrap(z, k, uns), k, uns) && Congruent(Wrap(z, k, uns), z, k)
  {
    WrapInRange(z, k, uns);
    var q := PatDiffer(Wrap(z, k, uns), z, k);
    ModUnique(q * Pow2(k), q, 0, Pow2(k));
  }

  lemma {:induction false} BitOfPat(z: int, k: nat, i: nat)
    requires i < k
    ensures BitOf(Pat(z, k), i) <==> BitOf(z, i)
    decreases i
  {
    HalfPat(z, k - 1);
    hide Pat, Pow2;
    var u := Pat(z / 2, k - 1);
    assert (z % 2 + 2 * u) % 2 == z % 2 && (z % 2 + 2 * u) / 2 == u;
    if i > 0 {
      BitOfPat(z / 2, k - 1, i - 1);
    }
  }

  /** A bit operation goes bit by bit. */
  lemma {:induction false} BitsAt(op: Op, a: nat, b: nat, k: nat, i: nat)
    requires (op.And? || op.Or? || op.Xor?) && i < k
    ensures var c := BitOf(Bits(op, a, b, k), i);
      && (op.And? ==> (c <==> BitOf(a, i) && BitOf(b, i)))
      && (op.Or? ==> (c <==> BitOf(a, i) || BitOf(b, i)))
      && (op.Xor? ==> (c <==> BitOf(a, i) != BitOf(b, i)))
    decreases i
  {
    var d, u := Bit(op, a, b), Bits(op, a / 2, b / 2, k - 1);
    assert Bits(op, a, b, k) == d + 2 * u;
    assert (d + 2 * u) % 2 == d && (d + 2 * u) / 2 == u;
    if i > 0 {
      BitsAt(op, a / 2, b / 2, k - 1, i - 1);
    }
  }

  /** What the target computes is what the operator means. */
  lemma TargetMeans(op: Op, x: int, y: int, k: nat, uns: bool)
    requires 0 < k && Target(op, x, y, k, uns).Some?
    ensures Means(op, x, y, Target(op, x, y, k, uns).value, k, uns)
  {
    hide Pow2, Pat, Wrap, Bits, BitOf, TruncDiv, TruncRem, InRange, Congruent;
    match op
    case Mul => WrapCongruent(x * y, k, uns);
    case Add => WrapCongruent(x + y, k, uns);
    case Sub => WrapCongruent(x - y, k, uns);
    case Div => DivRem(x, y);
    case Rem => DivRem(x, y);
    case Shl => WrapCongruent(x * Pow2(y), k, uns);
    case Shr => FloorShrinks(x, Pow2(y)); Distribute(x / Pow2(y), 1, Pow2(y));
    case And => BitsMean(op, x, y, k, uns);
    case Or => BitsMean(op, x, y, k, uns);
    case Xor => BitsMean(op, x, y, k, uns);
    case _ =>
  }

  lemma BitsMean(op: Op, x: int, y: int, k: nat, uns: bool)
    requires 0 < k && (op.And? || op.Or? || op.Xor?)
    ensures Means(op, x, y, Wrap(Bits(op, Pat(x, k), Pat(y, k), k), k, uns), k, uns)
  {
    hide Pow2, Pat, Wrap, Bits, BitOf, InRange;
    var a, b := Pat(x, k), Pat(y, k);
    var c := Bits(op, a, b, k);
    WrapInRange(c, k, uns);
    forall i | 0 <= i < k
      ensures BitOf(Wrap(c, k, uns), i) <==> BitOf(c, i)
      ensures BitOf(a, i) <==> BitOf(x, i)
      ensures BitOf(b, i) <==> BitOf(y, i)
      ensures op.And? ==> (BitOf(c, i) <==> BitOf(a, i) && BitOf(b, i))
      ensures op.Or? ==> (BitOf(c, i) <==> BitOf(a, i) || BitOf(b, i))
      ensures op.Xor? ==> (BitOf(c, i) <==> BitOf(a, i) != BitOf(b, i))
    {
      BitOfPat(x, k, i);
      BitOfPat(y, k, i);
      BitOfPat(Wrap(c, k, uns), k, i);
      BitOfPat(c, k, i);
      BitsAt(op, a, b, k, i);
    }
  }

  /** It means nothing else: an operator has one result at most. */
  lemma MeansOne(op: Op, x: int, y: int, r: int, r': int, k: nat, uns: bool)
    requires 0 < k && Means(op, x, y, r, k, uns) && Means(op, x, y, r', k, uns)
    ensures r == r'
  {
    hide Pow2, Pat, BitOf, InRange, Congruent, Divided;
    match op
    case Mul => CongruentOnce(r, r', x * y, k, uns);
    case Add => CongruentOnce(r, r', x + y, k, uns);
    case Sub => CongruentOnce(r, r', x - y, k, uns);
    case Shl => CongruentOnce(r, r', x * Pow2(y), k, uns);
    case Div =>
      var m :| Divided(x, y, r, m);
      var m' :| Divided(x, y, r', m');
      DividedOnce(x, y, r, m, r', m');
    case Rem =>
      var q :| Divided(x, y, q, r);
      var q' :| Divided(x, y, q', r');
      DividedOnce(x, y, q, r, q', r');
    case Shr =>
      Distribute(r, 1, Pow2(y));
      Distribute(r', 1, Pow2(y));
      ModUnique(x, r, x - r * Pow2(y), Pow2(y));
      ModUnique(x, r', x - r' * Pow2(y), Pow2(y));
    case And => SameBits(r, r', k, uns);
    case Or => SameBits(r, r', k, uns);
    case Xor => SameBits(r, r', k, uns);
    case _ =>
  }

  lemma CongruentOnce(r: int, r': int, z: int, k: nat, uns: bool)
    requires 0 < k && InRange(r, k, uns) && InRange(r', k, uns) && Congruent(r, z, k) && Congruent(r', z, k)
    ensures r == r'
  {
    hide Pow2, InRange;
    var m := Pow2(k);
    PatSame(r, z, (r - z) / m, k);
    PatSame(r', z, (r' - z) / m, k);
    WrapSame(r, k, uns);
    WrapSame(r', k, uns);
  }

  lemma SameBits(r: int, r': int, k: nat, uns: bool)
    requires 0 < k && InRange(r, k, uns) && InRange(r', k, uns) && forall i :: 0 <= i < k ==> (BitOf(r, i) <==> BitOf(r', i))
    ensures r == r'
  {
    hide InRange, Pow2, BitOf, Pat;
    SamePattern(r, r', k);
    WrapSame(r, k, uns);
    WrapSame(r', k, uns);
  }

  lemma {:induction false} SamePattern(a: int, b: int, k: nat)
    requires forall i :: 0 <= i < k ==> (BitOf(a, i) <==> BitOf(b, i))
    ensures Pat(a, k) == Pat(b, k)
    decreases k
  {
    if k > 0 {
      HalfPat(a, k - 1);
      HalfPat(b, k - 1);
      assert BitOf(a, 0) <==> BitOf(b, 0);
      forall i | 0 <= i < k - 1 ensures BitOf(a / 2, i) <==> BitOf(b / 2, i) {
        assert BitOf(a, i + 1) <==> BitOf(b, i + 1);
      }
      hide Pat, BitOf;
      SamePattern(a / 2, b / 2, k - 1);
    }
  }

  /** The target leaves a quotient undefined exactly when there is none or it is no number of the type. */
  lemma NoQuotient(op: Op, x: int, y: int, k: nat, uns: bool)
    requires 0 < k && (op.Div? || op.Rem?) && InRange(x, k, uns) && InRange(y, k, uns)
    ensures Target(op, x, y, k, uns).None? <==> forall q, r :: Divided(x, y, q, r) ==> !InRange(q, k, uns)
  {
    if y != 0 {
      DivRem(x, y);
      hide TruncRem;
      if Target(op, x, y, k, uns).Some? {
        DivInRange(x, y, k, uns);
      } else {
        assert TruncDiv(x, y) == Pow2(k - 1) by {
          NegativeDivisor(Pow2(k - 1), 1);
        }
        forall q, r | Divided(x, y, q, r) ensures !InRange(q, k, uns) {
          DividedOnce(x, y, q, r, TruncDiv(x, y), TruncRem(x, y));
        }
      }
    }
  }
}

/** The front end's own arithmetic on constants: done in the host's integers, of h bits each, then cut to the
    size of the type. */
module ConstFold {
  import opened Wrappers
  import opened TargetArith

  const MAXSIZE: nat := 8

  /** The host's reading of an h-bit pattern (writh), and the pattern of a writh (unsigned writh). */
  function W(u: int, h: nat): int
    requires 0 < h
  {
    Wrap(u, h, false)
  }

  function U(v: int, h: nat): nat { Pat(v, h) }

  /** The number that a constant of the given signedness stands for. */
  function Meaning(v: int, uns: bool, h: nat): int
  {
    if uns then U(v, h) else v
  }

  /** A constant as it is kept for a type: the writh whose meaning is a number of the type. */
  predicate Canonical(v: int, size: nat, uns: bool, h: nat)
    requires 1 <= size && 8 * size <= h
  {
    InRange(v, h, false) && InRange(Meaning(v, uns, h), 8 * size, uns)
  }

  /** The constant that stands for the number x. */
  function Rep(x: int, h: nat): int
    requires 0 < h
  {
    W(x, h)
  }

  lemma {:induction false} PowGrows(j: nat, k: nat)
    requires k <= j
    ensures Pow2(k) <= Pow2(j)
    decreases j
  {
    if k < j {
      PowGrows(j - 1, k);
    }
  }

  /** Numbers of a type and canonical constants correspond one to one. */
  lemma RepCanonical(x: int, size: nat, uns: bool, h: nat)
    requires 1 <= size && 8 * size <= h && InRange(x, 8 * size, uns)
    ensures Canonical(Rep(x, h), size, uns, h) && Meaning(Rep(x, h), uns, h) == x
  {
    PowGrows(h, 8 * size);
    PowGrows(h - 1, 8 * size - 1);
    WrapInRange(x, h, false);
    if uns {
      PatSmall(x, h);
    } else {
      WrapSame(x, h, false);
    }
  }

  lemma CanonicalRep(v: int, size: nat, uns: bool, h: nat)
    requires 1 <= size && 8 * size <= h && Canonical(v, size, uns, h)
    ensures Rep(Meaning(v, uns, h), h) == v
  {
    PatPat(v, h, h);
    WrapSame(v, h, false);
  }

  /** full_mask[size] as a host pattern. */
  function Mask(size: nat): nat { Pow2(8 * size) - 1 }

  /** init_cst: full_mask[i] gets 8 * i ones, for every size up to the size of writh; a writh wider than
      MAXSIZE bytes is a fatal error. */
  method InitCst(bytes: nat) returns (ok: bool, mask: array<int>)
    requires 1 <= bytes
    ensures ok <==> bytes <= MAXSIZE
    ensures mask.Length == MAXSIZE + 1
    ensures ok ==> forall i :: 1 <= i <= bytes ==> mask[i] == W(Mask(i), 8 * bytes)
  {
    ghost var h := 8 * bytes;
    mask := new int[MAXSIZE + 1];
    var i: nat, bt := 0, 0;
    Masks(0, bytes);
    while !(W(bt, 8 * bytes) < 0)
      invariant i <= bytes && i <= MAXSIZE && bt == Mask(i)
      invariant forall j :: 1 <= j <= i ==> mask[j] == W(Mask(j), h)
      decreases bytes - i
    {
      Masks(i, bytes);
      bt, i := U(U(bt * 256, 8 * bytes) + 0xff, 8 * bytes), i + 1;
      if i > MAXSIZE {
        return false, mask; // array full_mask too small for this machine
      }
      mask[i] := W(bt, 8 * bytes);
    }
    Masks(i, bytes);
    ok := true;
  }

  lemma SomePowers(h: nat)
    requires 0 < h
    ensures Pow2(8) == 256 && Pow2(h) == 2 * Pow2(h - 1)
  {
  }

  /** Only the widest mask is negative as a writh, which is what ends the loop. */
  lemma Masks(i: nat, bytes: nat)
    requires i <= bytes && 1 <= bytes
    ensures W(Mask(i), 8 * bytes) < 0 <==> i == bytes
    ensures i < bytes ==> U(U(Mask(i) * 256, 8 * bytes) + 0xff, 8 * bytes) == Mask(i) * 256 + 0xff
    ensures i < bytes ==> Mask(i + 1) == Mask(i) * 256 + 0xff
  {
    hide Pat, Pow2;
    var h := 8 * bytes;
    PowAdd(8, 8 * i);
    SomePowers(h);
    SomePowers(8 * i + 1);
    PowGrows(h, 8 * i);
    PatSmall(Mask(i), h);
    if i < bytes {
      PowGrows(h, 8 * i + 8);
      PowGrows(h - 1, 8 * i);
      PatSmall(Mask(i) * 256, h);
      PatSmall(Mask(i) * 256 + 0xff, h);
    } else {
      BelowPower(h - 1);
    }
  }

  lemma {:induction false} BelowPower(n: nat)
    ensures n < Pow2(n)
  {
    if n > 0 {
      BelowPower(n - 1);
    }
  }

  lemma ShiftOut(v: int, k: nat, h: nat)
    requires 0 < k <= h
    ensures U(v * Pow2(h - k), h) == Pat(v, k) * Pow2(h - k)
  {
    hide Pow2;
    var q, r, p := v / Pow2(k), Pat(v, k), Pow2(h - k);
    PowAdd(k, h - k);
    Distribute(q * Pow2(k), r, p);
    Associate(q, Pow2(k), p);
    PatSame(v * p, r * p, q, h);
    Below(r, Pow2(k), p);
    PatSmall(r * p, h);
  }

  /** Scaling keeps the order. */
  lemma Below(r: int, m: int, p: int)
    requires 0 < p
    ensures r < m ==> r * p < m * p
    ensures m <= r ==> m * p <= r * p
    ensures 0 <= r ==> 0 <= r * p
  {
    Distribute(m, r, p);
    Multiple(m - r, p);
    Multiple(r, p);
    Distribute(r, m, p);
    Multiple(r - m, p);
  }

  /** Shifting left and back right by what the host is wider sign-extends the pattern. */
  lemma ShiftExtends(v: int, k: nat, h: nat)
    requires 0 < k <= h
    ensures W(v * Pow2(h - k), h) / Pow2(h - k) == Wrap(v, k, false)
  {
    var r, p := Pat(v, k), Pow2(h - k);
    ShiftOut(v, k, h);
    PowAdd(k, h - k);
    PowAdd(k - 1, h - k);
    Below(r, Pow2(k - 1), p);
    Distribute(r, Pow2(k), p);
    var x := Wrap(v, k, false);
    assert W(v * p, h) == x * p;
    ModUnique(x * p, x, 0, p);
  }

  function Quotient(a: nat, b: nat): nat
    requires 0 < b
  {
    a / b
  }

  /** The operators as the host computes them on its patterns; the divisor is not zero. Signed types
      are computed on writh, and the order comparisons of one direction on swapped operands. */
  function HostOp(op: Op, o1: nat, o2: nat, uns: bool, h: nat): nat
    requires 0 < h && (op.Div? || op.Rem? ==> o2 != 0 && W(o2, h) != 0)
  {
    match op
    case Mul => U(o1 * o2, h)
    case Div => if uns then Quotient(o1, o2) else U(TruncDiv(W(o1, h), W(o2, h)), h)
    case Rem => if uns then o1 % o2 else U(TruncRem(W(o1, h), W(o2, h)), h)
    case Add => U(o1 + o2, h)
    case Sub => U(o1 - o2, h)
    case Shl => U(o1 * Pow2(o2), h)
    case Shr => if o2 == 0 then o1 else if uns then Quotient(o1, Pow2(o2)) else U(W(o1, h) / Pow2(o2), h)
    case Lt => Truth(if uns then o2 > o1 else W(o2, h) > W(o1, h))
    case Gt => Truth(if uns then o1 > o2 else W(o1, h) > W(o2, h))
    case Le => Truth(if uns then o2 >= o1 else W(o2, h) >= W(o1, h))
    case Ge => Truth(if uns then o1 >= o2 else W(o1, h) >= W(o2, h))
    case Eq => Truth(o1 == o2)
    case Ne => Truth(o1 != o2)
    case _ => Bits(op, o1, o2, h)
  }

  function Truth(b: bool): nat { if b then 1 else 0 }

  /** The host's result has the pattern of the target's result. */
  lemma HostExact(op: Op, v: int, w: int, size: nat, uns: bool, wsize: nat, wuns: bool, h: nat)
    requires 1 <= size && 8 * size <= h && Canonical(v, size, uns, h)
    requires 1 <= wsize && 8 * wsize <= h && Canonical(w, wsize, wuns, h)
    requires op.Shl? || op.Shr? || (size == wsize && uns == wuns)
    requires op.Shl? || op.Shr? ==> 0 <= w < h
    requires Target(op, Meaning(v, uns, h), Meaning(w, wuns, h), 8 * size, uns).Some?
    requires op.Div? || op.Rem? ==> U(w, h) != 0 && W(U(w, h), h) != 0
    ensures Pat(HostOp(op, U(v, h), U(w, h), uns, h), 8 * size)
         == Pat(Target(op, Meaning(v, uns, h), Meaning(w, wuns, h), 8 * size, uns).value, 8 * size)
  {
    hide Pow2, Pat, Bits, InRange, TruncDiv, TruncRem;
    var k, x, y, o1, o2 := 8 * size, Meaning(v, uns, h), Meaning(w, wuns, h), U(v, h), U(w, h);
    Operand(v, size, uns, h);
    Operand(w, wsize, wuns, h);
    match op
    case Mul =>
      PatPat(o1 * o2, h, k);
      PatProduct(o1, o2, x, y, k);
      WrapInRange(x * y, k, uns);
    case Add =>
      PatPat(o1 + o2, h, k);
      PatSum(o1, o2, x, y, k);
      WrapInRange(x + y, k, uns);
    case Sub =>
      PatPat(o1 - o2, h, k);
      PatSum(o1, o2, x, y, k);
      WrapInRange(x - y, k, uns);
    case Div => PatPat(TruncDiv(x, y), h, k); UnsignedDivision(x, y);
    case Rem => PatPat(TruncRem(x, y), h, k); UnsignedDivision(x, y);
    case Shl =>
      ShiftCount(w, wuns, h);
      PatPat(o1 * Pow2(o2), h, k);
      PatTimes(o1, x, Pow2(o2), k);
      WrapInRange(x * Pow2(y), k, uns);
    case Shr =>
      ShiftCount(w, wuns, h);
      PatPat(x / Pow2(y), h, k);
      NoMask();
    case And => BitsExact(op, o1, o2, x, y, k, uns, h);
    case Or => BitsExact(op, o1, o2, x, y, k, uns, h);
    case Xor => BitsExact(op, o1, o2, x, y, k, uns, h);
    case _ =>
  }

  lemma UnsignedDivision(x: int, y: int)
    ensures 0 <= x && 0 < y ==> TruncDiv(x, y) == x / y && TruncRem(x, y) == x % y
  {
  }

  lemma ShiftCount(w: int, wuns: bool, h: nat)
    requires 0 <= w < h
    ensures U(w, h) == w && Meaning(w, wuns, h) == w
  {
    hide Pow2;
    BelowPower(h);
    PatSmall(w, h);
  }

  lemma BitsExact(op: Op, o1: nat, o2: nat, x: int, y: int, k: nat, uns: bool, h: nat)
    requires (op.And? || op.Or? || op.Xor?) && 0 < k <= h
    requires Pat(o1, k) == Pat(x, k) && Pat(o2, k) == Pat(y, k)
    ensures Pat(Bits(op, o1, o2, h), k) == Pat(Wrap(Bits(op, Pat(x, k), Pat(y, k), k), k, uns), k)
  {
    hide Pow2, Bits, Pat;
    var c := Bits(op, Pat(x, k), Pat(y, k), k);
    BitsLow(op, o1, o2, h, k);
    WrapInRange(c, k, uns);
    PatSmall(c, k);
  }

  lemma HostRange(o: int, h: nat)
    requires 0 < h
    ensures InRange(W(o, h), h, false)
  {
    WrapInRange(o, h, false);
  }

  /** Cutting a host pattern that agrees with a number of the type gives that number. */
  lemma Landed(o: int, z: int, size: nat, uns: bool, h: nat)
    requires 1 <= size && 8 * size <= h && InRange(z, 8 * size, uns) && Pat(o, 8 * size) == Pat(z, 8 * size)
    ensures Wrap(W(o, h), 8 * size, uns) == z
  {
    hide Pow2, Pat;
    WrapInRange(o, h, false);
    PatPat(W(o, h), h, 8 * size);
    PatPat(o, h, 8 * size);
    WrapSame(z, 8 * size, uns);
  }

  /** When cut_size warns: it looks only at the bits above the width of the type. */
  predicate CutWarns(v: int, size: nat, uns: bool, h: nat)
  {
    if uns then U(v, h) >= Pow2(8 * size) else !(-Pow2(8 * size) <= v < Pow2(8 * size))
  }

  /** The warning says that the number changes when it is cut, except for the numbers of a signed type of k
      bits from 2^(k-1) up to 2^k and from -2^k up to -2^(k-1), which change without one. */
  lemma WarningRight(v: int, size: nat, uns: bool, h: nat)
    requires 1 <= size && 8 * size <= h && InRange(v, h, false)
    ensures var k, x := 8 * size, Meaning(v, uns, h);
      (CutWarns(v, size, uns, h) <==> Wrap(x, k, uns) != x) <==>
        (uns || !(Pow2(k - 1) <= v < Pow2(k) || -Pow2(k) <= v < -Pow2(k - 1)))
  {
    var k, x := 8 * size, Meaning(v, uns, h);
    WrapInRange(x, k, uns);
    if InRange(x, k, uns) {
      WrapSame(x, k, uns);
    }
  }

  /** Two constants that overflow an int of two bytes without a warning. */
  lemma SilentOverflow(h: nat)
    requires 16 < h
    ensures InRange(40000, h, false) && !CutWarns(40000, 2, false, h) && Wrap(40000, 16, false) == -25536
    ensures InRange(-40000, h, false) && !CutWarns(-40000, 2, false, h) && Wrap(-40000, 16, false) == 25536
  {
    assert Pow2(8) == 256;
    PowAdd(8, 8);
    SomePowers(16);
    PowGrows(h - 1, 16);
    PatSmall(40000, 16);
    ModUnique(-40000, -1, 25536, Pow2(16));
  }

  /** A constant expression node, rewritten in place. */
  class Expr {
    /** VL_VALUE, the size and signedness of its type, and the bits of writh. */
    var value: int
    const size: nat
    const uns: bool
    const h: nat
    /** A division by zero has been reported. */
    var error: bool

    constructor (v: int, size: nat, uns: bool, h: nat)
      requires 1 <= size && 8 * size <= h && Canonical(v, size, uns, h)
      ensures value == v && this.size == size && this.uns == uns && this.h == h && !error
    {
      value, error := v, false;
      this.size, this.uns, this.h := size, uns, h;
    }

    ghost predicate Valid()
      reads this
    {
      1 <= size && 8 * size <= h && Canonical(value, size, uns, h)
    }

    /** cut_size: the value becomes the one of the type that it wraps around to. */
    method CutSize() returns (warn: bool)
      requires 1 <= size && 8 * size <= h && InRange(value, h, false)
      modifies this`value
      ensures Valid() && Meaning(value, uns, h) == Wrap(old(value), 8 * size, uns)
      ensures warn <==> CutWarns(old(value), size, uns, h)
    {
      hide Bits, Pow2, Pat;
      var k := 8 * size;
      ghost var v := value;
      AboveMask(v, k, h);
      var remainder := Bits(And, U(value, h), Pow2(h) - Pow2(k), h);
      if uns {
        warn := remainder != 0;
        value := W(Bits(And, U(value, h), Mask(size), h), h);
        AndMask(U(v, h), h, k);
        PatPat(v, h, k);
      } else {
        warn := remainder != 0 && remainder != Pow2(h) - Pow2(k);
        var nbits := h - k;
        value := W(value * Pow2(nbits), h) / Pow2(nbits);
        ShiftExtends(v, k, h);
        RepOfWrap(v, k, h);
      }
      WrapInRange(v, k, uns);
      RepCanonical(Wrap(v, k, uns), size, uns, h);
    }

    /** cstbin: the constant becomes what the target computes, whenever the target computes anything; a
        zero divisor is reported and changes nothing. The host leaves shifts by its own width or more
        undefined. */
    method CstBin(op: Op, other: Expr)
      requires Valid() && other.Valid() && other.h == h
      requires op.Shl? || op.Shr? || (size == other.size && uns == other.uns)
      requires op.Shl? || op.Shr? ==> 0 <= other.value < h
      modifies this`value, this`error
      ensures Valid()
      ensures var r := Target(op, Meaning(old(value), uns, h), Meaning(old(other.value), other.uns, h), 8 * size, uns);
        r.Some? ==> Meaning(value, uns, h) == r.value && value == Rep(r.value, h)
      ensures var x, y := Meaning(old(value), uns, h), Meaning(old(other.value), other.uns, h);
        Target(op, x, y, 8 * size, uns).Some? ==> Means(op, x, y, Meaning(value, uns, h), 8 * size, uns)
      ensures var byZero := (op.Div? || op.Rem?) && old(other.value) == 0;
        error == (old(error) || byZero) && (byZero ==> value == old(value))
    {
      hide Pow2, Pat, Bits, InRange, TruncDiv, TruncRem, Means;
      ghost var k, v, w := 8 * size, value, other.value;
      ghost var x, y := Meaning(v, uns, h), Meaning(w, other.uns, h);
      ghost var r := Target(op, x, y, k, uns);
      Operand(v, size, uns, h);
      Operand(w, other.size, other.uns, h);
      var o1, o2 := U(value, h), U(other.value, h);
      if r.Some? {
        TargetInRange(op, x, y, k, uns);
        TargetMeans(op, x, y, k, uns);
      }
      if (op.Div? || op.Rem?) && o2 == 0 {
        error := true;
      } else {
        if r.Some? {
          HostExact(op, v, w, size, uns, other.size, other.uns, h);
        }
        o1 := HostOp(op, o1, o2, uns, h);
      }
      HostRange(o1, h);
      value := W(o1, h);
      var _ := CutSize();
      if r.Some? {
        Landed(o1, r.value, size, uns, h);
      }
      if o1 == U(v, h) {
        Landed(o1, x, size, uns, h);
      }
      CanonicalRep(value, size, uns, h);
      CanonicalRep(v, size, uns, h);
    }
  }

  /** The host pattern of a canonical constant. */
  lemma Operand(v: int, size: nat, uns: bool, h: nat)
    requires 1 <= size && 8 * size <= h && Canonical(v, size, uns, h)
    ensures W(U(v, h), h) == v && Pat(U(v, h), 8 * size) == Pat(Meaning(v, uns, h), 8 * size)
    ensures uns ==> U(v, h) == Meaning(v, uns, h)
    ensures InRange(Meaning(v, uns, h), 8 * size, uns)
    ensures U(v, h) == 0 <==> v == 0
  {
    hide Pow2;
    PatPat(v, h, h);
    PatPat(v, h, 8 * size);
    WrapSame(v, h, false);
    PatSmall(0, h);
  }

  /** The bits of v above the k lowest. */
  lemma AboveMask(v: int, k: nat, h: nat)
    requires 0 < h && k <= h && InRange(v, h, false)
    ensures Pow2(k) <= Pow2(h)
    ensures var r := Bits(And, U(v, h), Pow2(h) - Pow2(k), h);
      && (r == 0 <==> U(v, h) < Pow2(k))
      && (r == 0 || r == Pow2(h) - Pow2(k) <==> -Pow2(k) <= v < Pow2(k))
  {
    hide Bits, Pow2, Pat;
    AndHigh(U(v, h), h, k);
    PatIs(U(v, h), k);
    PowAdd(h - k, k);
    HighPart(U(v, h), Pow2(k), Pow2(h - k));
    HostPattern(v, k, h);
  }

  lemma PatIs(a: int, k: nat)
    ensures Pat(a, k) == a % Pow2(k)
  {
  }

  lemma HighPart(u: nat, m: int, c: int)
    requires 0 < m && 0 < c && u < c * m
    ensures u - u % m == 0 <==> u < m
    ensures u - u % m == c * m - m <==> u >= c * m - m
  {
    var q := u / m;
    assert u == q * m + u % m;
    Multiple(q, m);
    Distribute(c, 1, m);
    if u < m {
      ModUnique(u, 0, u, m);
    }
    if u >= c * m - m {
      ModUnique(u, c - 1, u - (c * m - m), m);
    }
  }

  /** The pattern of a writh: itself, or above all k-bit patterns if it is negative. */
  lemma HostPattern(v: int, k: nat, h: nat)
    requires 0 < h && k <= h && InRange(v, h, false)
    ensures U(v, h) == if v < 0 then v + Pow2(h) else v
    ensures U(v, h) < Pow2(k) || U(v, h) >= Pow2(h) - Pow2(k) <==> -Pow2(k) <= v < Pow2(k)
  {
    SomePowers(h);
    hide Pow2;
    if v < 0 {
      ModUnique(v, -1, v + Pow2(h), Pow2(h));
    } else {
      PatSmall(v, h);
    }
    if k < h {
      PowGrows(h - 1, k);
    }
  }

  lemma RepOfWrap(v: int, k: nat, h: nat)
    requires 0 < k <= h
    ensures Rep(Wrap(v, k, false), h) == Wrap(v, k, false)
  {
    WrapInRange(v, k, false);
    PowGrows(h - 1, k - 1);
    WrapSame(Wrap(v, k, false), h, false);
  }
}
