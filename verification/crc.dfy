/** The 16-bit CRC of the YMODEM receiver and of the serial disk, on patterns of bits, highest first. */
module Crc16 {

  type byte = b: nat | b < 256

  type register = x: seq<bool> | |x| == 16 witness seq(16, _ => false)

  /** 0x1021 */
  const POLY: register :=
    [false, false, false, true, false, false, false, false, false, false, true, false, false, false, false, true]

  /** The low n bits of b. */
  function BitsOf(b: nat, n: nat): (x: seq<bool>)
    ensures |x| == n
  {
    if n == 0 then [] else BitsOf(b / 2, n - 1) + [b % 2 == 1]
  }

  lemma BitsParts(a: nat, n: nat)
    requires n > 0
    ensures |BitsOf(a, n)| == n && BitsOf(a, n)[..n - 1] == BitsOf(a / 2, n - 1)
    ensures BitsOf(a, n)[n - 1] == (a % 2 == 1)
  {
  }

  lemma {:induction false} BitsInjective(a: nat, b: nat, n: nat, m: nat)
    requires BitsOf(a, n) == BitsOf(b, n) && a < m && b < m && m == Power(n)
    ensures a == b
  {
    if n > 0 {
      BitsParts(a, n);
      BitsParts(b, n);
      assert m == 2 * Power(n - 1);
      hide BitsOf, Power;
      BitsInjective(a / 2, b / 2, n - 1, m / 2);
    }
  }

  function Power(n: nat): nat { if n == 0 then 1 else 2 * Power(n - 1) }

  lemma BytesInjective(a: byte, b: byte)
    requires BitsOf(a, 8) == BitsOf(b, 8)
    ensures a == b
  {
    assert Power(2) == 4;
    assert Power(4) == 16;
    assert Power(6) == 64;
    BitsInjective(a, b, 8, 256);
  }

  function Zeros(n: nat): seq<bool> { seq(n, _ => false) }

  function Xor(x: seq<bool>, y: seq<bool>): (z: seq<bool>)
    requires |x| == |y|
    ensures |z| == |x|
  {
    seq(|x|, i requires 0 <= i < |x| => x[i] != y[i])
  }

  /** One bit through the register. */
  function Shift(x: register): register
  {
    if x[0] then Xor(x[1..] + [false], POLY) else x[1..] + [false]
  }

  function Shifts(x: register, n: nat): register
  {
    if n == 0 then x else Shift(Shifts(x, n - 1))
  }

  function Update(crc: register, ch: byte): register
  {
    Shifts(Xor(crc, BitsOf(ch, 8) + Zeros(8)), 8)
  }

  function Crc(buf: seq<byte>): register
  {
    if buf == [] then Zeros(16) else Update(Crc(buf[..|buf| - 1]), buf[|buf| - 1])
  }

  /** ymodem_crc16_update */
  method YmodemUpdate(crc: register, ch: byte) returns (r: register)
    ensures r == Update(crc, ch)
  {
    r := Xor(crc, BitsOf(ch, 8) + Zeros(8));
    ghost var x := r;
    for i := 0 to 8
      invariant r == Shifts(x, i)
    {
      if r[0] {
        r := Xor(r[1..] + [false], POLY);
      } else {
        r := r[1..] + [false];
      }
    }
  }

  /** sdcrc_update: the serial disk's version computes the same function. */
  method SdUpdate(crc: register, ch: byte) returns (r: register)
    ensures r == Update(crc, ch)
  {
    r := Xor(crc, BitsOf(ch, 8) + Zeros(8));
    ghost var x := r;
    var i := 0;
    while i < 8
      invariant 0 <= i <= 8 && r == Shifts(x, i)
    {
      r := if r[0] then Xor(r[1..] + [false], POLY) else r[1..] + [false];
      i := i + 1;
    }
  }

  /** ymodem_crc16 */
  method YmodemCrc(buf: seq<byte>) returns (crc: register)
    ensures crc == Crc(buf)
  {
    crc := Zeros(16);
    for i := 0 to |buf|
      invariant crc == Crc(buf[..i])
    {
      assert buf[..i + 1][..i] == buf[..i];
      crc := YmodemUpdate(crc, buf[i]);
    }
    assert buf[..|buf|] == buf;
  }

  // ---------- the register is linear and loses nothing ----------

  lemma ShiftLinear(x: register, y: register)
    ensures Shift(Xor(x, y)) == Xor(Shift(x), Shift(y))
  {
  }

  /** The bit that leaves the register comes back at its end. */
  lemma ShiftKeeps(x: register)
    ensures Shift(x)[15] == x[0]
    ensures forall i :: 1 <= i < 16 ==> Shift(x)[i - 1] == if x[0] then x[i] != POLY[i - 1] else x[i]
  {
  }

  lemma ShiftInjective(x: register, y: register)
    requires Shift(x) == Shift(y)
    ensures x == y
  {
    ShiftKeeps(x);
    ShiftKeeps(y);
    forall i | 0 <= i < 16 ensures x[i] == y[i] {
      if i > 0 {
        assert Shift(x)[i - 1] == Shift(y)[i - 1];
      }
    }
  }

  lemma {:induction false} ShiftsLinear(x: register, y: register, n: nat)
    ensures Shifts(Xor(x, y), n) == Xor(Shifts(x, n), Shifts(y, n))
  {
    if n > 0 {
      ShiftsLinear(x, y, n - 1);
      ShiftLinear(Shifts(x, n - 1), Shifts(y, n - 1));
    }
  }

  lemma {:induction false} ShiftsInjective(x: register, y: register, n: nat)
    requires Shifts(x, n) == Shifts(y, n)
    ensures x == y
  {
    if n > 0 {
      ShiftInjective(Shifts(x, n - 1), Shifts(y, n - 1));
      ShiftsInjective(x, y, n - 1);
    }
  }

  /** Zeros at the front are just shifted out. */
  lemma {:induction false} ZerosOut(x: register, n: nat)
    requires n <= 16 && forall i :: 0 <= i < n ==> !x[i]
    ensures Shifts(x, n) == x[n..] + Zeros(n)
  {
    if n > 0 {
      ZerosOut(x, n - 1);
    }
  }

  /** If the last n bits are zero after n shifts, the first n were zero before. */
  lemma {:induction false} ZerosIn(x: register, n: nat)
    requires n <= 16 && forall i :: 16 - n <= i < 16 ==> !Shifts(x, n)[i]
    ensures forall i :: 0 <= i < n ==> !x[i]
  {
    if n > 0 {
      var y := Shifts(x, n - 1);
      ShiftKeeps(y);
      assert Shift(y) == Shifts(x, n);
      forall i | 17 - n <= i < 16 ensures !y[i] {
        assert !Shift(y)[i - 1];
      }
      ZerosIn(x, n - 1);
      ZerosOut(x, n - 1);
    }
  }

  lemma {:induction false} ZeroStays(n: nat)
    ensures Shifts(Zeros(16), n) == Zeros(16)
  {
    if n > 0 {
      ZeroStays(n - 1);
    }
  }

  // ---------- the CRC is the remainder of a division of polynomials over the field of two elements ----------

  /** x^16 + x^12 + x^5 + 1, highest coefficient first. */
  function Generator(): (g: seq<bool>)
    ensures |g| == 17
  {
    seq(17, i => 16 - i == 16 || 16 - i == 12 || 16 - i == 5 || 16 - i == 0)
  }

  /** The payload as a polynomial. */
  function MsgBits(p: seq<byte>): (m: seq<bool>)
    ensures |m| == 8 * |p|
  {
    if p == [] then [] else MsgBits(p[..|p| - 1]) + BitsOf(p[|p| - 1], 8)
  }

  /** A polynomial times the generator. */
  function Product(q: seq<bool>): (r: seq<bool>)
    ensures |r| == |q| + 16
  {
    if q == [] then Zeros(16)
    else
      var n := |q| - 1;
      Xor(Product(q[..n]) + [false], Zeros(n) + if q[n] then Generator() else Zeros(17))
  }

  lemma XorParts(a: seq<bool>, b: seq<bool>, c: seq<bool>, d: seq<bool>)
    requires |a| == |c| && |b| == |d|
    ensures Xor(a + b, c + d) == Xor(a, c) + Xor(b, d)
  {
  }

  lemma XorZeros(a: seq<bool>)
    ensures Xor(a, Zeros(|a|)) == a && Xor(Zeros(|a|), a) == a && Xor(a, a) == Zeros(|a|)
  {
  }

  lemma XorThree(a: seq<bool>, b: seq<bool>, c: seq<bool>)
    requires |a| == |b| == |c|
    ensures Xor(Xor(a, b), c) == Xor(a, Xor(b, c))
  {
  }

  lemma ZerosAdd(m: nat, n: nat)
    ensures Zeros(m) + Zeros(n) == Zeros(m + n)
  {
  }

  /** A factor in two parts. */
  lemma {:induction false} ProductAppend(p: seq<bool>, q: seq<bool>)
    ensures Product(p + q) == Xor(Product(p) + Zeros(|q|), Zeros(|p|) + Product(q))
    decreases |q|
  {
    hide Xor, Generator, Product;
    if q == [] {
      assert p + q == p && Product(p) + Zeros(0) == Product(p);
      ProductNone(q);
      ZerosAdd(|p|, 16);
      XorZeros(Product(p));
    } else {
      var m, n := |p|, |q| - 1;
      var g := if q[n] then Generator() else Zeros(17);
      assert (p + q)[..m + n] == p + q[..n] && (p + q)[m + n] == q[n];
      ProductAppend(p, q[..n]);
      ProductLast(p + q);
      ProductLast(q);
      var a, b, c := Product(p) + Zeros(n), Zeros(m) + Product(q[..n]), Zeros(n) + g;
      XorParts(a, [false], b, [false]);
      FalseTwice();
      assert a + [false] == Product(p) + Zeros(|q|) && b + [false] == Zeros(m) + (Product(q[..n]) + [false]);
      ZerosAdd(m, n);
      assert Zeros(m + n) + g == Zeros(m) + c;
      XorThree(a + [false], b + [false], Zeros(m) + c);
      XorParts(Zeros(m), Product(q[..n]) + [false], Zeros(m), c);
      XorZeros(Zeros(m));
    }
  }

  lemma FalseTwice()
    ensures Xor([false], [false]) == [false]
  {
  }

  lemma ProductNone(q: seq<bool>)
    requires q == []
    ensures Product(q) == Zeros(16)
  {
  }

  lemma ProductLast(q: seq<bool>)
    requires q != []
    ensures var n := |q| - 1;
      Product(q) == Xor(Product(q[..n]) + [false], Zeros(n) + if q[n] then Generator() else Zeros(17))
  {
  }

  /** One bit through the register takes the generator out once, if the bit that leaves is set. */
  lemma ShiftDivides(x: register)
    ensures x + [false] == Xor(if x[0] then Generator() else Zeros(17), [false] + Shift(x))
  {
    assert Generator() == [true] + POLY;
    var y := Xor(if x[0] then Generator() else Zeros(17), [false] + Shift(x));
    forall i | 0 <= i < 17 ensures (x + [false])[i] == y[i] {
      if i > 0 {
        ShiftAt(x, i - 1);
      }
    }
  }

  lemma ShiftAt(x: register, i: nat)
    requires i < 16
    ensures Shift(x)[i] == ((x[1..] + [false])[i] != (x[0] && POLY[i]))
  {
  }

  lemma {:induction false} ShiftsDivide(x: register, n: nat) returns (q: seq<bool>)
    ensures |q| == n && x + Zeros(n) == Xor(Product(q), Zeros(n) + Shifts(x, n))
  {
    hide Xor, Product, Shift, Generator, Shifts;
    if n == 0 {
      q := [];
      ProductNone(q);
      ShiftsNone(x);
      assert x + Zeros(0) == x && Zeros(0) + x == x;
      assert Zeros(16) + Zeros(0) == Zeros(16);
      XorZeros(x);
    } else {
      var p := ShiftsDivide(x, n - 1);
      var s := Shifts(x, n - 1);
      q := p + [s[0]];
      assert q[..n - 1] == p;
      ProductLast(q);
      ShiftDivides(s);
      var g := if s[0] then Generator() else Zeros(17);
      var z := Zeros(n - 1);
      XorParts(Product(p), [false], z + s, [false]);
      FalseTwice();
      assert x + Zeros(n) == (x + Zeros(n - 1)) + [false];
      XorZeros(z);
      XorParts(z, g, z, [false] + Shift(s));
      assert z + (s + [false]) == (z + s) + [false];
      assert z + ([false] + Shift(s)) == Zeros(n) + Shift(s);
      XorThree(Product(p) + [false], z + g, Zeros(n) + Shift(s));
      assert Shift(s) == Shifts(x, n) by { ShiftsLast(x, n); }
    }
  }

  lemma ShiftsNone(x: register)
    ensures Shifts(x, 0) == x
  {
  }

  lemma ShiftsLast(x: register, n: nat)
    requires n > 0
    ensures Shifts(x, n) == Shift(Shifts(x, n - 1))
  {
  }

  /** The payload times x^16 is a multiple of the generator and the CRC, which has a lower degree. */
  lemma {:induction false} CrcIsRemainder(p: seq<byte>) returns (q: seq<bool>)
    ensures |q| == 8 * |p| && MsgBits(p) + Zeros(16) == Xor(Product(q), Zeros(8 * |p|) + Crc(p))
    decreases |p|
  {
    if p == [] {
      q := [];
      assert MsgBits(p) + Zeros(16) == Zeros(16) && Zeros(0) + Crc(p) == Zeros(16);
      XorZeros(Zeros(16));
    } else {
      var k := |p| - 1;
      var r := CrcIsRemainder(p[..k]);
      var bits := BitsOf(p[k], 8);
      var x := Xor(Crc(p[..k]), bits + Zeros(8));
      var t := ShiftsDivide(x, 8);
      q := r + t;
      ProductAppend(r, t);
      OneByteMore(MsgBits(p[..k]), Product(r), Crc(p[..k]), bits, 8 * k, Product(t), Shifts(x, 8));
    }
  }

  lemma OneByteMore(m: seq<bool>, pr: seq<bool>, c: register, bits: seq<bool>, n: nat, pt: seq<bool>, s: register)
    requires |m| == n && |pr| == n + 16 && |bits| == 8 && |pt| == 24
    requires m + Zeros(16) == Xor(pr, Zeros(n) + c)
    requires Xor(c, bits + Zeros(8)) + Zeros(8) == Xor(pt, Zeros(8) + s)
    ensures (m + bits) + Zeros(16) == Xor(Xor(pr + Zeros(8), Zeros(n) + pt), Zeros(n + 8) + s)
  {
    var w := Xor(Xor(pr + Zeros(8), Zeros(n) + pt), Zeros(n + 8) + s);
    forall i | 0 <= i < n + 24 ensures ((m + bits) + Zeros(16))[i] == w[i] {
      var low := if i < n + 16 then (m + Zeros(16))[i] == Xor(pr, Zeros(n) + c)[i] else true;
      assert low;
      if i >= n {
        var j := i - n;
        assert (Xor(c, bits + Zeros(8)) + Zeros(8))[j] == Xor(pt, Zeros(8) + s)[j];
      }
    }
  }

  lemma {:induction false} ProductLinear(p: seq<bool>, q: seq<bool>)
    requires |p| == |q|
    ensures Product(Xor(p, q)) == Xor(Product(p), Product(q))
    decreases |p|
  {
    if p != [] {
      var n := |p| - 1;
      ProductLinear(p[..n], q[..n]);
      assert Xor(p, q)[..n] == Xor(p[..n], q[..n]);
    }
  }

  /** A multiple of the generator whose degree is below the generator's is zero. */
  lemma {:induction false} SmallProduct(q: seq<bool>)
    requires forall i :: 0 <= i < |q| ==> !Product(q)[i]
    ensures Product(q) == Zeros(|q| + 16)
    decreases |q|
  {
    if q != [] {
      var h, t := [q[0]], q[1..];
      assert q == h + t;
      ProductAppend(h, t);
      assert h[..0] == [] && Product(h)[0] == q[0] by { ProductLast(h); }
      assert Product(q)[0] == q[0];
      assert Product(h) == Zeros(17) by { ProductLast(h); }
      forall i | 0 <= i < |t| ensures !Product(t)[i] {
        assert Product(q)[i + 1] == Product(t)[i];
      }
      SmallProduct(t);
    }
  }

  /** There is one remainder only. */
  lemma RemainderOnce(m: seq<bool>, q: seq<bool>, c: register, q': seq<bool>, c': register)
    requires |q| == |q'| && |m| == |q| + 16
    requires m == Xor(Product(q), Zeros(|q|) + c) && m == Xor(Product(q'), Zeros(|q|) + c')
    ensures c == c'
  {
    var d := Xor(q, q');
    ProductLinear(q, q');
    forall i | 0 <= i < |m| ensures Product(d)[i] == ((Zeros(|q|) + c)[i] != (Zeros(|q|) + c')[i]) {
      assert Xor(Product(q), Zeros(|q|) + c)[i] == Xor(Product(q'), Zeros(|q|) + c')[i];
    }
    SmallProduct(d);
    forall i | 0 <= i < 16 ensures c[i] == c'[i] {
      assert !Product(d)[|q| + i];
    }
  }

  // ---------- what the CRC finds ----------

  lemma CrcLast(p: seq<byte>, b: byte)
    ensures Crc(p + [b]) == Update(Crc(p), b)
  {
    assert (p + [b])[..|p|] == p;
  }

  /** A payload with its own CRC behind it has the CRC zero. */
  lemma Residue(p: seq<byte>, hi: byte, lo: byte)
    requires Crc(p) == BitsOf(hi, 8) + BitsOf(lo, 8)
    ensures Crc(p + [hi, lo]) == Zeros(16)
  {
    var c := Crc(p);
    assert p + [hi, lo] == (p + [hi]) + [lo];
    CrcLast(p, hi);
    CrcLast(p + [hi], lo);
    var x := Xor(c, BitsOf(hi, 8) + Zeros(8));
    assert x == Zeros(8) + BitsOf(lo, 8);
    ZerosOut(x, 8);
    assert Update(c, hi) == BitsOf(lo, 8) + Zeros(8);
    assert Xor(Update(c, hi), BitsOf(lo, 8) + Zeros(8)) == Zeros(16);
    ZeroStays(8);
  }

  /** Different CRCs stay different whatever equal bytes follow. */
  lemma {:induction false} StaysDifferent(p: seq<byte>, q: seq<byte>, rest: seq<byte>)
    requires Crc(p) != Crc(q)
    ensures Crc(p + rest) != Crc(q + rest)
    decreases |rest|
  {
    if rest == [] {
      assert p + rest == p && q + rest == q;
    } else {
      var n := |rest| - 1;
      var x := BitsOf(rest[n], 8) + Zeros(8);
      StaysDifferent(p, q, rest[..n]);
      assert p + rest == (p + rest[..n]) + [rest[n]] && q + rest == (q + rest[..n]) + [rest[n]];
      CrcLast(p + rest[..n], rest[n]);
      CrcLast(q + rest[..n], rest[n]);
      var c, d := Crc(p + rest[..n]), Crc(q + rest[..n]);
      if Update(c, rest[n]) == Update(d, rest[n]) {
        ShiftsInjective(Xor(c, x), Xor(d, x), 8);
        XorCancels(c, d, x);
      }
    }
  }

  lemma XorCancels(x: seq<bool>, y: seq<bool>, z: seq<bool>)
    requires |x| == |y| == |z| && Xor(x, z) == Xor(y, z)
    ensures x == y
  {
    forall i | 0 <= i < |x| ensures x[i] == y[i] {
      assert Xor(x, z)[i] == (x[i] != z[i]) && Xor(y, z)[i] == (y[i] != z[i]);
    }
  }

  /** Payloads of equal length that differ only inside two adjacent bytes never have the same CRC. */
  lemma BurstFound(p: seq<byte>, a: byte, b: byte, a': byte, b': byte, rest: seq<byte>)
    requires (a, b) != (a', b')
    ensures Crc(p + [a, b] + rest) != Crc(p + [a', b'] + rest)
  {
    TwoBytes(p, a, b, a', b');
    StaysDifferent(p + [a, b], p + [a', b'], rest);
  }

  lemma TwoBytes(p: seq<byte>, a: byte, b: byte, a': byte, b': byte)
    requires (a, b) != (a', b')
    ensures Crc(p + [a, b]) != Crc(p + [a', b'])
  {
    var c, z := Crc(p), Zeros(8);
    var x, x' := Xor(c, BitsOf(a, 8) + z), Xor(c, BitsOf(a', 8) + z);
    var u, u' := Update(c, a), Update(c, a');
    assert p + [a, b] == (p + [a]) + [b] && p + [a', b'] == (p + [a']) + [b'];
    CrcLast(p, a);
    CrcLast(p, a');
    CrcLast(p + [a], b);
    CrcLast(p + [a'], b');
    if Update(u, b) == Update(u', b') {
      var y, y' := Xor(u, BitsOf(b, 8) + z), Xor(u', BitsOf(b', 8) + z);
      ShiftsInjective(y, y', 8);
      forall i | 8 <= i < 16 ensures u[i] == u'[i] {
        assert y[i] == (u[i] != z[i - 8]) && y'[i] == (u'[i] != z[i - 8]);
      }
      ShiftsLinear(x, x', 8);
      ZerosIn(Xor(x, x'), 8);
      forall i | 0 <= i < 8 ensures BitsOf(a, 8)[i] == BitsOf(a', 8)[i] {
        assert !Xor(x, x')[i];
      }
      BytesInjective(a, a');
      forall i | 0 <= i < 8 ensures BitsOf(b, 8)[i] == BitsOf(b', 8)[i] {
        assert y[i] == (u[i] != BitsOf(b, 8)[i]) && y'[i] == (u[i] != BitsOf(b', 8)[i]);
      }
      BytesInjective(b, b');
    }
  }
}
