/** The bits of a number, and what shifts and masks do to them. */
module BitView {
  import opened Wrappers
  import opened TargetArith
  import opened CExpr

  /** Bit i of a number in two's complement, however long. */
  predicate BitAt(z: int, i: nat)
    decreases i
  {
    if i == 0 then z % 2 == 1 else BitAt(z / 2, i - 1)
  }

  /** Numbers below 2^k with the same k bits are equal. */
  lemma {:induction false} SameBits(a: nat, b: nat, k: nat)
    requires a < Pow2(k) && b < Pow2(k) && forall i :: 0 <= i < k ==> BitAt(a, i) == BitAt(b, i)
    ensures a == b
    decreases k
  {
    if k > 0 {
      assert BitAt(a, 0) == BitAt(b, 0);
      forall i | 0 <= i < k - 1 ensures BitAt(a / 2, i) == BitAt(b / 2, i) {
        assert BitAt(a, i + 1) == BitAt(b, i + 1);
      }
      SameBits(a / 2, b / 2, k - 1);
    }
  }

  lemma WordsSame(a: word, b: word)
    requires forall i :: 0 <= i < BITS ==> BitAt(a, i) == BitAt(b, i)
    ensures a == b
  {
    WordSize();
    SameBits(a, b, BITS);
  }

  lemma HalfOf(z: int, m: int)
    requires 0 < m
    ensures z / (2 * m) == z / 2 / m
  {
    var h := z / 2;
    var q, r := h / m, h % m;
    assert h == q * m + r && z == 2 * h + z % 2;
    Associate(q, 2, m);
    assert q * (2 * m) == 2 * (q * m);
    ModUnique(z, q, 2 * r + z % 2, 2 * m);
  }

  /** Dividing by a power of two shifts the bits down. */
  lemma {:induction false} BitShr(z: int, s: nat, i: nat)
    ensures BitAt(z / Pow2(s), i) == BitAt(z, i + s)
    decreases s
  {
    if s > 0 {
      HalfOf(z, Pow2(s - 1));
      BitShr(z / 2, s - 1, i);
    }
  }

  /** Multiplying by a power of two shifts them up. */
  lemma {:induction false} BitShl(z: int, s: nat, i: nat)
    ensures BitAt(z * Pow2(s), i) == (i >= s && BitAt(z, i - s))
    decreases s
  {
    if s > 0 {
      var y := z * Pow2(s - 1);
      assert z * Pow2(s) == 2 * y by { Associate(z, 2, Pow2(s - 1)); }
      BitShl(z, s - 1, if i == 0 then 0 else i - 1);
    }
  }

  /** A pattern has the low bits of the number. */
  lemma {:induction false} BitPat(z: int, k: nat, i: nat)
    requires i < k
    ensures BitAt(Pat(z, k), i) == BitAt(z, i)
    decreases k
  {
    hide Pat;
    HalfPat(z, k - 1);
    if i > 0 {
      BitPat(z / 2, k - 1, i - 1);
    }
  }

  lemma {:induction false} BitBits(op: Op, a: nat, b: nat, k: nat, i: nat)
    requires (op.And? || op.Or? || op.Xor?) && i < k
    ensures BitAt(Bits(op, a, b, k), i)
         == match op case And => BitAt(a, i) && BitAt(b, i) case Or => BitAt(a, i) || BitAt(b, i) case _ => BitAt(a, i) != BitAt(b, i)
    decreases k
  {
    hide Bits, Pow2;
    BitsStep(op, a, b, k);
    var c, d := Bits(op, a, b, k), Bits(op, a / 2, b / 2, k - 1);
    assert c % 2 == Bit(op, a, b) && c / 2 == d;
    if i > 0 {
      BitBits(op, a / 2, b / 2, k - 1, i - 1);
    }
  }

  /** The signed reading of a word repeats its highest bit. */
  lemma {:induction false} BitHigh(z: int, k: nat, i: nat)
    requires 0 < k && -Pow2(k - 1) <= z < Pow2(k - 1) && i >= k - 1
    ensures BitAt(z, i) == (z < 0)
    decreases i
  {
    if k == 1 {
      if i > 0 {
        BitHigh(z / 2, 1, i - 1);
      }
    } else {
      BitHigh(z / 2, k - 1, i - 1);
    }
  }

  lemma BitNum(w: word, i: nat)
    ensures BitAt(Num(w, false), i) == BitAt(w, if i < BITS then i else BITS - 1)
    ensures i < BITS ==> BitAt(Num(w, true), i) == BitAt(w, i)
    ensures i >= BITS ==> !BitAt(Num(w, true), i)
  {
    WordSize();
    assert Pow2(15) == 0x8000;
    var z := Num(w, false);
    WrapInRange(w, BITS, false);
    PatSmall(w, BITS);
    if i < BITS {
      BitPat(z, BITS, i);
    } else {
      BitHigh(z, BITS, i);
      BitHigh(z, BITS, BITS - 1);
      BitPat(z, BITS, BITS - 1);
      NoHighBit(w, BITS, i);
    }
  }

  lemma {:induction false} NoHighBit(u: nat, k: nat, i: nat)
    requires u < Pow2(k) && i >= k
    ensures !BitAt(u, i)
    decreases i
  {
    if i > 0 {
      NoHighBit(u / 2, if k == 0 then 0 else k - 1, i - 1);
    }
  }

  /** 2^n - 1 has the bits below n. */
  lemma {:induction false} BitMask(n: nat, i: nat)
    ensures BitAt(Pow2(n) - 1, i) == (i < n)
    decreases n
  {
    if n > 0 {
      assert (Pow2(n) - 1) / 2 == Pow2(n - 1) - 1;
      if i > 0 {
        BitMask(n - 1, i - 1);
      }
    } else {
      NoHighBit(0, 0, i);
    }
  }

  lemma {:induction false} BitNot(z: int, i: nat)
    ensures BitAt(-1 - z, i) == !BitAt(z, i)
    decreases i
  {
    if i > 0 {
      assert (-1 - z) / 2 == -1 - z / 2;
      BitNot(z / 2, i - 1);
    }
  }

  // ---------- the machine's operators, bit by bit ----------

  lemma ShlBits(uns: bool, w: word, s: word, i: nat)
    requires s < BITS && i < BITS
    ensures Apply(Shl, uns, w, s).Some? && BitAt(Apply(Shl, uns, w, s).value, i) == (i >= s && BitAt(w, i - s))
  {
    CountIs(s);
    var x := Num(w, uns);
    var z := x * Pow2(s);
    WrapInRange(z, BITS, uns);
    BitPat(Wrap(z, BITS, uns), BITS, i);
    BitPat(z, BITS, i);
    BitPat(Wrap(z, BITS, uns), BITS, i);
    BitShl(x, s, i);
    if i >= s {
      BitNum(w, i - s);
    }
  }

  lemma ShrBits(uns: bool, w: word, s: word, i: nat)
    requires s < BITS && i < BITS
    ensures Apply(Shr, uns, w, s).Some?
    ensures BitAt(Apply(Shr, uns, w, s).value, i)
         == if i + s < BITS then BitAt(w, i + s) else !uns && BitAt(w, BITS - 1)
  {
    CountIs(s);
    BitPat(Num(w, uns) / Pow2(s), BITS, i);
    BitShr(Num(w, uns), s, i);
    BitNum(w, i + s);
  }

  lemma CountIs(s: word)
    requires s < BITS
    ensures Num(s, false) == s
  {
    assert Pow2(4) == 16;
    PowAdd(4, 11);
    assert Pow2(15) == 0x8000;
    WordSize();
    hide Pow2;
    PatSmall(s, BITS);
  }

  lemma AndOrBits(a: word, b: word, i: nat)
    requires i < BITS
    ensures Apply(And, false, a, b).Some? && Apply(Or, false, a, b).Some?
    ensures BitAt(Apply(And, false, a, b).value, i) == (BitAt(a, i) && BitAt(b, i))
    ensures BitAt(Apply(Or, false, a, b).value, i) == (BitAt(a, i) || BitAt(b, i))
  {
    OneOf(And, a, b, i);
    OneOf(Or, a, b, i);
  }

  lemma OneOf(op: Op, a: word, b: word, i: nat)
    requires i < BITS && (op.And? || op.Or?)
    ensures Apply(op, false, a, b).Some?
    ensures BitAt(Apply(op, false, a, b).value, i) == if op.And? then BitAt(a, i) && BitAt(b, i) else BitAt(a, i) || BitAt(b, i)
  {
    var p, q := Pat(Num(a, false), BITS), Pat(Num(b, false), BITS);
    var c := Bits(op, p, q, BITS);
    WrapInRange(c, BITS, false);
    BitPat(Wrap(c, BITS, false), BITS, i);
    BitPat(c, BITS, i);
    BitBits(op, p, q, BITS, i);
    BitPat(Num(a, false), BITS, i);
    BitPat(Num(b, false), BITS, i);
    BitNum(a, i);
    BitNum(b, i);
  }
}

/** Bit-fields of word size: where they are put in a structure, and how they are read and written. */
module BitField {
  import opened Wrappers
  import opened TargetArith
  import opened CExpr
  import opened EmMachine
  import opened EvalCode
  import opened BitView
  import CF = ConstFold

  /** A field of a structure: the offset of its word, its width and its shift in the word. */
  datatype Field = Field(offset: nat, width: nat, shift: nat)

  predicate Placed(f: Field) { 1 <= f.width && f.shift + f.width <= BITS }

  // ---------- reading ----------

  /** The bit of a field's value: above its width a signed field repeats its highest bit. */
  predicate FieldBit(f: Field, uns: bool, w: word, i: nat)
    requires Placed(f)
  {
    if i < f.width then BitAt(w, f.shift + i) else !uns && BitAt(w, f.shift + f.width - 1)
  }

  function Mask(f: Field): word
    requires Placed(f)
  {
    MaskFits(f);
    Pow2(f.width) - 1
  }

  lemma MaskFits(f: Field)
    requires Placed(f)
    ensures 0 <= Pow2(f.width) - 1 < 0x10000 && Pow2(f.width) * Pow2(f.shift) <= 0x10000
  {
    PowAdd(f.width, f.shift);
    WordSize();
    hide Pow2;
    CF.PowGrows(BITS, f.width);
    CF.PowGrows(BITS, f.width + f.shift);
  }

  /** field2arith: the expression that extracts the field from the word in variable x. */
  function Extract(f: Field, uns: bool, x: nat): Expr
    requires Placed(f)
  {
    if uns then Bin(And, false, Bin(Shr, f.width >= BITS, Var(x), Const(f.shift)), Const(Mask(f)))
    else Bin(Shr, false, Bin(Shl, false, Var(x), Const(BITS - f.width - f.shift)), Const(BITS - f.width))
  }

  /** Extracting gives exactly the bits of the field, extended by its sign if it has one. */
  lemma ExtractBits(f: Field, uns: bool, x: nat, s: Store, i: nat)
    requires Placed(f) && i < BITS
    ensures Eval(Extract(f, uns, x), s).Val? && Eval(Extract(f, uns, x), s).s == s
    ensures BitAt(Eval(Extract(f, uns, x), s).v, i) == FieldBit(f, uns, Get(s, x), i)
  {
    if uns {
      ExtractUnsigned(f, x, s, i);
    } else {
      ExtractSigned(f, x, s, i);
    }
  }

  lemma ExtractUnsigned(f: Field, x: nat, s: Store, i: nat)
    requires Placed(f) && i < BITS
    ensures Eval(Extract(f, true, x), s).Val? && Eval(Extract(f, true, x), s).s == s
    ensures BitAt(Eval(Extract(f, true, x), s).v, i) == FieldBit(f, true, Get(s, x), i)
  {
    hide Apply, BitAt;
    var w, long := Get(s, x), f.width >= BITS;
    ShrBits(long, w, f.shift, i);
    assert Eval(Bin(Shr, long, Var(x), Const(f.shift)), s) == Val(Apply(Shr, long, w, f.shift).value, s);
    AndOrBits(Apply(Shr, long, w, f.shift).value, Mask(f), i);
    BitMask(f.width, i);
  }

  lemma ExtractSigned(f: Field, x: nat, s: Store, i: nat)
    requires Placed(f) && i < BITS
    ensures Eval(Extract(f, false, x), s).Val? && Eval(Extract(f, false, x), s).s == s
    ensures BitAt(Eval(Extract(f, false, x), s).v, i) == FieldBit(f, false, Get(s, x), i)
  {
    hide Apply, BitAt;
    var w := Get(s, x);
    ShlBits(false, w, BITS - f.width - f.shift, 0);
    var y := Apply(Shl, false, w, BITS - f.width - f.shift).value;
    assert Eval(Bin(Shl, false, Var(x), Const(BITS - f.width - f.shift)), s) == Val(y, s);
    ShrBits(false, y, BITS - f.width, i);
    var j := i + BITS - f.width;
    ShlBits(false, w, BITS - f.width - f.shift, if j < BITS then j else BITS - 1);
  }

  /** The value of a field in a word. */
  function Value(f: Field, uns: bool, w: word): word
    requires Placed(f)
  {
    ExtractBits(f, uns, 0, map[0 := w], 0);
    Eval(Extract(f, uns, 0), map[0 := w]).v
  }

  lemma ValueBits(f: Field, uns: bool, w: word)
    requires Placed(f)
    ensures forall i :: 0 <= i < BITS ==> BitAt(Value(f, uns, w), i) == FieldBit(f, uns, w, i)
  {
    forall i: nat | i < BITS ensures BitAt(Value(f, uns, w), i) == FieldBit(f, uns, w, i) {
      ExtractBits(f, uns, 0, map[0 := w], i);
    }
  }

  // ---------- writing ----------

  /** The complement of the shifted mask. */
  function Keep(f: Field): word
    requires Placed(f)
  {
    MaskFits(f);
    KeepFits(f);
    0xffff - (Pow2(f.width) - 1) * Pow2(f.shift)
  }

  lemma KeepFits(f: Field)
    requires Placed(f)
    ensures 0 <= (Pow2(f.width) - 1) * Pow2(f.shift) <= 0xffff
  {
    MaskFits(f);
    Distribute(Pow2(f.width), 1, Pow2(f.shift));
    Multiple(Pow2(f.width) - 1, Pow2(f.shift));
  }

  lemma KeepBits(f: Field, i: nat)
    requires Placed(f) && i < BITS
    ensures BitAt(Keep(f), i) == !(f.shift <= i < f.shift + f.width)
  {
    var z := (Pow2(f.width) - 1) * Pow2(f.shift);
    KeepFits(f);
    BitShl(Pow2(f.width) - 1, f.shift, i);
    if i >= f.shift {
      BitMask(f.width, i - f.shift);
    }
    BitNot(z, i);
    WordSize();
    PatSame(0xffff - z, -1 - z, 1, BITS);
    PatSmall(0xffff - z, BITS);
    BitPat(-1 - z, BITS, i);
  }

  /** The word with a new value in the field. */
  function Stored(f: Field, uns: bool, w: word, v: word): word
    requires Placed(f)
  {
    AndOrBits(v, Mask(f), 0);
    var m := Apply(And, false, v, Mask(f)).value;
    ShlBits(uns, m, f.shift, 0);
    var p := Apply(Shl, uns, m, f.shift).value;
    AndOrBits(Keep(f), w, 0);
    var q := Apply(And, false, Keep(f), w).value;
    AndOrBits(p, q, 0);
    Apply(Or, false, p, q).value
  }

  lemma StoredBit(f: Field, uns: bool, w: word, v: word, i: nat)
    requires Placed(f) && i < BITS
    ensures BitAt(Stored(f, uns, w, v), i) == if f.shift <= i < f.shift + f.width then BitAt(v, i - f.shift) else BitAt(w, i)
  {
    hide Apply;
    AndOrBits(v, Mask(f), 0);
    var m := Apply(And, false, v, Mask(f)).value;
    ShlBits(uns, m, f.shift, i);
    var p := Apply(Shl, uns, m, f.shift).value;
    AndOrBits(Keep(f), w, i);
    var q := Apply(And, false, Keep(f), w).value;
    AndOrBits(p, q, i);
    KeepBits(f, i);
    if i >= f.shift {
      AndOrBits(v, Mask(f), i - f.shift);
      BitMask(f.width, i - f.shift);
    }
  }

  /** The bits of v that fit the field, extended by the sign if it has one. */
  predicate CutBit(f: Field, uns: bool, v: word, i: nat)
    requires Placed(f)
  {
    if i < f.width then BitAt(v, i) else !uns && BitAt(v, f.width - 1)
  }

  /** Reading a field after writing it gives the value cut to its width. */
  lemma ReadBack(f: Field, uns: bool, u: bool, w: word, v: word)
    requires Placed(f)
    ensures forall i :: 0 <= i < BITS ==> BitAt(Value(f, uns, Stored(f, u, w, v)), i) == CutBit(f, uns, v, i)
  {
    hide Stored, Value;
    ValueBits(f, uns, Stored(f, u, w, v));
    forall i: nat | i < BITS ensures FieldBit(f, uns, Stored(f, u, w, v), i) == CutBit(f, uns, v, i) {
      StoredBit(f, u, w, v, f.shift + if i < f.width then i else f.width - 1);
    }
  }

  predicate Apart(f: Field, g: Field)
  {
    f.offset != g.offset || f.shift + f.width <= g.shift || g.shift + g.width <= f.shift
  }

  /** Writing a field leaves every other field of the word alone. */
  lemma OthersKept(f: Field, u: bool, g: Field, uns: bool, w: word, v: word)
    requires Placed(f) && Placed(g) && f.offset == g.offset && Apart(f, g)
    ensures Value(g, uns, Stored(f, u, w, v)) == Value(g, uns, w)
  {
    hide Stored, Value;
    ValueBits(g, uns, Stored(f, u, w, v));
    ValueBits(g, uns, w);
    forall i | 0 <= i < BITS ensures BitAt(Value(g, uns, Stored(f, u, w, v)), i) == BitAt(Value(g, uns, w), i) {
      StoredBit(f, u, w, v, g.shift + if i < g.width then i else g.width - 1);
    }
    WordsSame(Value(g, uns, Stored(f, u, w, v)), Value(g, uns, w));
  }

  // ---------- the code ----------

  /** store_field for a word in a simple variable; the value to store is on the stack. */
  function StoreCode(f: Field, uns: bool, x: nat): seq<Instr>
    requires Placed(f)
  {
    [Loc(f.shift), Arith(Shl, uns), Loc(Keep(f)), Lol(x), Arith(And, false), Arith(Or, false), Stl(x)]
  }

  /** eval_field for '=': the mask, the store, and the effective value if it is wanted. */
  function AssignCode(f: Field, uns: bool, gen: bool, x: nat): seq<Instr>
    requires Placed(f)
  {
    var n := BITS - f.width;
    [Loc(Mask(f)), Arith(And, false)] + (if gen then [Dup] else []) + StoreCode(f, uns, x)
    + if gen && !uns then [Loc(n), Arith(Shl, false), Loc(n), Arith(Shr, false)] else []
  }

  /** Two instructions that replace the top of the stack: a constant, and an operator on it. */
  lemma ConstOp(op: Op, uns: bool, c: word, rest: seq<Instr>, a: word, k: seq<word>, s: Store)
    requires !IsRel(op) && Apply(op, uns, a, c).Some?
    ensures Exec([Loc(c), Arith(op, uns)] + rest, St([a] + k, s)) == Exec(rest, St([Apply(op, uns, a, c).value] + k, s))
  {
    hide Exec, Jump, Apply;
    var u := St([c] + ([a] + k), s);
    assert u.k[2..] == k && u.k[1] == a;
    assert [Loc(c), Arith(op, uns)] + rest == [Loc(c)] + ([Arith(op, uns)] + rest);
    ExecOne(Loc(c), [Arith(op, uns)] + rest, St([a] + k, s));
    ExecOne(Arith(op, uns), rest, u);
  }

  lemma StoreRuns(f: Field, uns: bool, x: nat, m: word, k: seq<word>, s: Store, rest: seq<Instr>)
    requires Placed(f)
    ensures ShlDefined(f, uns, m)
    ensures var p := Apply(Shl, uns, m, f.shift).value;
      && AndOrDefined(Keep(f), Get(s, x)) && AndOrDefined(p, Apply(And, false, Keep(f), Get(s, x)).value)
      && var z := Apply(Or, false, p, Apply(And, false, Keep(f), Get(s, x)).value).value;
      Exec(StoreCode(f, uns, x) + rest, St([m] + k, s)) == Exec(rest, St(k, s[x := z]))
  {
    hide Exec, Jump, Apply, Keep;
    var w := Get(s, x);
    ShlBits(uns, m, f.shift, 0);
    var p := Apply(Shl, uns, m, f.shift).value;
    AndOrBits(Keep(f), w, 0);
    var q := Apply(And, false, Keep(f), w).value;
    AndOrBits(p, q, 0);
    var z := Apply(Or, false, p, q).value;
    var c0 := MergeCode(Keep(f), x) + rest;
    assert StoreCode(f, uns, x) + rest == [Loc(f.shift), Arith(Shl, uns)] + c0;
    ConstOp(Shl, uns, f.shift, c0, m, k, s);
    hide *;
    MergeRuns(Keep(f), x, p, q, z, k, s, rest);
  }

  /** The word in memory without the field, with the shifted value in its place. */
  function MergeCode(keep: word, x: nat): seq<Instr> { [Loc(keep), Lol(x), Arith(And, false), Arith(Or, false), Stl(x)] }

  lemma MergeRuns(keep: word, x: nat, p: word, q: word, z: word, k: seq<word>, s: Store, rest: seq<Instr>)
    requires Apply(And, false, keep, Get(s, x)) == Some(q) && Apply(Or, false, p, q) == Some(z)
    ensures Exec(MergeCode(keep, x) + rest, St([p] + k, s)) == Exec(rest, St(k, s[x := z]))
  {
    hide Exec, Jump, Apply;
    var w := Get(s, x);
    var c4 := [Stl(x)] + rest;
    var c3 := [Arith(Or, false)] + c4;
    var c2 := [Arith(And, false)] + c3;
    var c1 := [Lol(x)] + c2;
    assert MergeCode(keep, x) + rest == [Loc(keep)] + c1;
    var k0, k1, k2, k3 := [p] + k, [keep] + ([p] + k), [w] + ([keep] + ([p] + k)), [q] + ([p] + k);
    ExecOne(Loc(keep), c1, St(k0, s));
    ExecOne(Lol(x), c2, St(k1, s));
    assert k2[2..] == k0 && k2[1] == keep && k2[0] == w;
    ExecOne(Arith(And, false), c3, St(k2, s));
    assert k3[2..] == k && k3[1] == p && k3[0] == q;
    ExecOne(Arith(Or, false), c4, St(k3, s));
    assert ([z] + k)[1..] == k;
    ExecOne(Stl(x), rest, St([z] + k, s));
  }

  predicate ShlDefined(f: Field, uns: bool, m: word) requires Placed(f) { Apply(Shl, uns, m, f.shift).Some? }

  predicate AndOrDefined(a: word, b: word) { Apply(And, false, a, b).Some? && Apply(Or, false, a, b).Some? }

  /** Assigning to a field: the word in memory gets the value in the field's place, and what is left on the
      stack, if anything, is what reading the field will give. */
  lemma AssignRuns(f: Field, uns: bool, gen: bool, x: nat, v: word, k: seq<word>, s: Store)
    requires Placed(f)
    ensures var z := Stored(f, uns, Get(s, x), v);
      Exec(AssignCode(f, uns, gen, x), St([v] + k, s)) == Fall(St(if gen then [Value(f, uns, z)] + k else k, s[x := z]))
  {
    hide Exec, Jump, Apply, Keep, StoreCode, Value;
    AndOrBits(v, Mask(f), 0);
    var m, n := Apply(And, false, v, Mask(f)).value, BITS - f.width;
    var z := Stored(f, uns, Get(s, x), v);
    var last := if gen && !uns then [Loc(n), Arith(Shl, false), Loc(n), Arith(Shr, false)] else [];
    var store := StoreCode(f, uns, x) + last;
    var dup := (if gen then [Dup] else []) + store;
    assert AssignCode(f, uns, gen, x) == [Loc(Mask(f)), Arith(And, false)] + dup;
    ConstOp(And, false, Mask(f), dup, v, k, s);
    if gen {
      assert dup == [Dup] + store;
      ExecOne(Dup, store, St([m] + k, s));
    } else {
      assert dup == store;
    }
    var below := if gen then [m] + k else k;
    StoreRuns(f, uns, x, m, below, s, last);
    ExecOne(Dup, [], St(below, s[x := z]));
    if gen {
      Effective(f, uns, Get(s, x), v);
      if !uns {
        ShlBits(false, m, n, 0);
        var y := Apply(Shl, false, m, n).value;
        ShrBits(false, y, n, 0);
        assert last == [Loc(n), Arith(Shl, false)] + [Loc(n), Arith(Shr, false)];
        ConstOp(Shl, false, n, [Loc(n), Arith(Shr, false)], m, k, s[x := z]);
        assert [Loc(n), Arith(Shr, false)] + [] == [Loc(n), Arith(Shr, false)];
        ConstOp(Shr, false, n, [], y, k, s[x := z]);
        ExecOne(Dup, [], St([Apply(Shr, false, y, n).value] + k, s[x := z]));
      }
    }
  }

  /** The masked value, sign-extended if the field has a sign, is what reading the field gives. */
  lemma Effective(f: Field, uns: bool, w: word, v: word)
    requires Placed(f)
    ensures AndOrDefined(v, Mask(f))
    ensures var m := Apply(And, false, v, Mask(f)).value;
      var n := BITS - f.width;
      && Apply(Shl, false, m, n).Some? && Apply(Shr, false, Apply(Shl, false, m, n).value, n).Some?
      && Value(f, uns, Stored(f, uns, w, v)) == if uns then m else Apply(Shr, false, Apply(Shl, false, m, n).value, n).value
  {
    hide Apply, Stored, Value;
    AndOrBits(v, Mask(f), 0);
    var m, n := Apply(And, false, v, Mask(f)).value, BITS - f.width;
    ShlBits(false, m, n, 0);
    var y := Apply(Shl, false, m, n).value;
    ShrBits(false, y, n, 0);
    var r := if uns then m else Apply(Shr, false, y, n).value;
    ReadBack(f, uns, uns, w, v);
    forall i | 0 <= i < BITS ensures BitAt(r, i) == CutBit(f, uns, v, i) {
      if uns {
        AndOrBits(v, Mask(f), i);
        BitMask(f.width, i);
      } else {
        var j := i + n;
        ShrBits(false, y, n, i);
        var h := if j < BITS then j else BITS - 1;
        ShlBits(false, m, n, h);
        AndOrBits(v, Mask(f), h - n);
        BitMask(f.width, h - n);
      }
    }
    WordsSame(r, Value(f, uns, Stored(f, uns, w, v)));
  }
}

/** add_field: where the plain int fields of a structure go. */
module StructLayout {
  import opened CExpr
  import opened BitField
  import LA = Locals
  import BV = BitView

  const INTALIGN: nat := 2
  const INTSIZE: nat := 2

  /** An ordinary member. */
  datatype Member = Member(offset: nat, size: nat)

  predicate Overlap(m: Member, f: Field) { m.offset < f.offset + INTSIZE && f.offset < m.offset + m.size }

  /** The bits that the fields in the word at an offset take. */
  function Used(fields: seq<Field>, offset: nat): nat
  {
    if fields == [] then 0
    else
      var n := |fields| - 1;
      Used(fields[..n], offset) + if fields[n].offset == offset then fields[n].width else 0
  }

  lemma {:induction false} NoneUsed(fields: seq<Field>, offset: nat)
    requires forall i :: 0 <= i < |fields| ==> fields[i].offset != offset
    ensures Used(fields, offset) == 0
  {
    if fields != [] {
      NoneUsed(fields[..|fields| - 1], offset);
    }
  }

  lemma UsedMore(fields: seq<Field>, f: Field, offset: nat)
    ensures Used(fields + [f], offset) == Used(fields, offset) + if f.offset == offset then f.width else 0
  {
    assert (fields + [f])[..|fields|] == fields;
  }

  /** Fields and members lie in the first size bytes, no two fields share a bit, and no field shares its word with a
      member. */
  ghost predicate Disjoint(fields: seq<Field>, members: seq<Member>, size: nat)
  {
    && (forall i :: 0 <= i < |fields| ==> Placed(fields[i]) && fields[i].offset % INTALIGN == 0)
    && (forall i :: 0 <= i < |fields| ==> fields[i].offset + INTSIZE <= size)
    && (forall i, j :: 0 <= i < j < |fields| ==> Apart(fields[i], fields[j]))
    && (forall i :: 0 <= i < |members| ==> members[i].offset + members[i].size <= size)
    && (forall i, j :: 0 <= i < |members| && 0 <= j < |fields| ==> !Overlap(members[i], fields[j]))
  }

  lemma OneField(fields: seq<Field>, members: seq<Member>, size: nat, f: Field, more: nat)
    requires Disjoint(fields, members, size) && size <= more
    requires Placed(f) && f.offset % INTALIGN == 0 && f.offset + INTSIZE <= more
    requires forall i :: 0 <= i < |fields| ==> Apart(fields[i], f)
    requires forall i :: 0 <= i < |members| ==> !Overlap(members[i], f)
    ensures Disjoint(fields + [f], members, more)
  {
    hide Placed, Apart, Overlap;
  }

  class Struct {
    /** The -r option: fields are adjusted at the right of their word. */
    const right: bool
    var size: nat
    var fieldOffset: nat
    var bitsDeclared: nat
    /** field_busy: the member before was a field. */
    var busy: bool
    var fields: seq<Field>
    var members: seq<Member>

    constructor (r: bool)
      ensures right == r && Valid() && fields == [] && members == [] && size == 0
    {
      right, size, fieldOffset, bitsDeclared, busy, fields, members := r, 0, 0, 0, false, [], [];
    }

    /** The field uses only bits of its word that have been declared. */
    predicate Within(f: Field)
      reads this`bitsDeclared
    {
      if right then f.shift + f.width <= bitsDeclared else f.shift + bitsDeclared >= BITS
    }

    /** No two fields share a bit, and no field shares its word with an ordinary member. */
    ghost predicate Valid()
      reads this
    {
      && Disjoint(fields, members, size)
      && (busy ==>
            && fieldOffset % INTALIGN == 0 && fieldOffset + INTSIZE <= size && bitsDeclared <= BITS
            && bitsDeclared == Used(fields, fieldOffset)
            && (forall i :: 0 <= i < |fields| && fields[i].offset == fieldOffset ==> Within(fields[i]))
            && (forall i :: 0 <= i < |members| ==> members[i].offset + members[i].size <= fieldOffset))
    }

    /** Takes the next word of the structure for fields. */
    method NextWord()
      requires Valid()
      modifies this`size, this`fieldOffset
      ensures old(size) <= fieldOffset < old(size) + INTALIGN && fieldOffset % INTALIGN == 0
      ensures fieldOffset == LA.Align(old(size), INTALIGN) && size == fieldOffset + INTSIZE
    {
      LA.AlignAligned(size, INTALIGN);
      fieldOffset := LA.Align(size, INTALIGN);
      size := fieldOffset + INTSIZE;
    }

    /** add_field for a named field of type int or unsigned int. */
    method AddField(width: int) returns (ok: bool)
      requires Valid()
      modifies this
      ensures Valid() && members == old(members)
      ensures ok <==> 1 <= width <= BITS
      ensures !ok ==> fields == old(fields) && size == old(size)
      ensures ok ==> |fields| == |old(fields)| + 1 && fields[..|old(fields)|] == old(fields) && fields[|old(fields)|].width == width
      ensures old(size) <= size && (ok ==> busy)
      ensures ok ==>
        var f := fields[|old(fields)|];
        var same := old(busy) && Used(old(fields), old(fieldOffset)) + width <= BITS;
        var before := Used(old(fields), f.offset);
        && f.offset == fieldOffset == (if same then old(fieldOffset) else LA.Align(old(size), INTALIGN))
        && f.shift == (if right then before else BITS - before - width)
        && size == (if same then old(size) else fieldOffset + INTSIZE)
    {
      if width < 0 || width == 0 || width > BITS {
        return false; // illegal field-width
      }
      if !busy {
        NextWord();
        bitsDeclared := 0;
        busy := true;
        NoneUsed(fields, fieldOffset);
        assert Valid();
      }
      PlaceField(width);
      ok := true;
    }

    /** Puts a field into the current word, or into the next one if it does not fit. */
    method PlaceField(width: nat)
      requires Valid() && busy && 1 <= width <= BITS
      modifies this`size, this`fieldOffset, this`bitsDeclared, this`fields
      ensures Valid()
      ensures |fields| == |old(fields)| + 1 && fields[..|old(fields)|] == old(fields) && fields[|old(fields)|].width == width
      ensures var f := fields[|old(fields)|];
        var same := Used(old(fields), old(fieldOffset)) + width <= BITS;
        var before := Used(old(fields), f.offset);
        && f.offset == fieldOffset == (if same then old(fieldOffset) else LA.Align(old(size), INTALIGN))
        && f.shift == (if right then before else BITS - before - width)
        && size == (if same then old(size) else fieldOffset + INTSIZE)
      ensures old(size) <= size
    {
      hide Used, LA.Align;
      if width > BITS - bitsDeclared {
        NextWord();
        NoneUsed(fields, fieldOffset);
        bitsDeclared := width;
      } else {
        bitsDeclared := bitsDeclared + width;
      }
      var f := Field(fieldOffset, width, if right then bitsDeclared - width else BITS - bitsDeclared);
      UsedMore(fields, f, fieldOffset);
      OneField(fields, members, old(size), f, size);
      fields := fields + [f];
    }

    /** An ordinary member behind what is there. */
    method AddMember(sz: nat, al: nat)
      requires Valid() && 0 < al
      modifies this
      ensures Valid() && fields == old(fields)
      ensures exists o: nat :: members == old(members) + [Member(o, sz)] && old(size) <= o < old(size) + al && o % al == 0 && size == o + sz
    {
      LA.AlignAligned(size, al);
      var o := LA.Align(size, al);
      Multiple(o, al);
      members := members + [Member(o, sz)];
      size := o + sz;
      busy := false;
    }

    lemma Multiple(o: nat, al: nat)
      requires 0 < al && LA.Aligned(0 - o, al)
      ensures o % al == 0
    {
      LA.TA.ModUnique(o, -((0 - o) / al), 0, al);
    }

    /** In a structure, writing one field gives back its value cut to its width and changes no other. */
    lemma FieldsIndependent(i: nat, j: nat, u: bool, uns: bool, s: Store, v: word)
      requires Valid() && i < |fields| && j < |fields|
      ensures var f, g := fields[i], fields[j];
        var z := s[f.offset := Stored(f, u, Get(s, f.offset), v)];
        && (i != j ==> Value(g, uns, Get(z, g.offset)) == Value(g, uns, Get(s, g.offset)))
        && (i == j ==> forall b :: 0 <= b < BITS ==> BV.BitAt(Value(f, uns, Get(z, f.offset)), b) == CutBit(f, uns, v, b))
    {
      var f, g := fields[i], fields[j];
      if i == j {
        ReadBack(f, uns, u, Get(s, f.offset), v);
      } else {
        assert i < j ==> Apart(f, g);
        assert j < i ==> Apart(g, f);
        if f.offset == g.offset {
          OthersKept(f, u, g, uns, Get(s, f.offset), v);
        }
      }
    }
  }
}
