/** Integer expressions on simple variables and what C says they mean. */
module CExpr {
  import opened Wrappers
  import opened TargetArith

  const BITS: nat := 16

  /** The pattern of an int or unsigned int. */
  type word = w: nat | w < 0x10000

  /** The number that a pattern stands for. */
  function Num(w: word, uns: bool): int { Wrap(w, BITS, uns) }

  lemma WordSize()
    ensures Pow2(BITS) == 0x10000
  {
    assert Pow2(4) == 16;
    PowAdd(4, 4);
    PowAdd(8, 8);
  }

  function ToWord(z: int): word
  {
    WordSize();
    Pat(z, BITS)
  }

  predicate IsRel(op: Op) { op.Lt? || op.Gt? || op.Le? || op.Ge? || op.Eq? || op.Ne? }

  /** An operator on patterns, in the type that both operands have; a shift count is a plain int. */
  function Apply(op: Op, uns: bool, a: word, b: word): Option<word>
  {
    var r := Target(op, Num(a, uns), Num(b, uns && !op.Shl? && !op.Shr?), BITS, uns);
    if r.Some? then Some(ToWord(r.value)) else None
  }

  function Truth(b: bool): word { if b then 1 else 0 }

  /** The forms of assignment with an operator: x op= e, ++x and --x, x++ and x--. */
  datatype Kind = OpEq | Pre | Post

  datatype Expr =
    | Const(v: word)
    | Var(x: nat)
    | Bin(op: Op, uns: bool, l: Expr, r: Expr)
    | Neg(e: Expr)
    | Com(e: Expr)
    | Not(e: Expr)
    | Logic(conj: bool, l: Expr, r: Expr)
    | Comma(l: Expr, r: Expr)
    | Cond(c: Expr, l: Expr, r: Expr)
    | Assign(x: nat, e: Expr)
    | OpAssign(kind: Kind, op: Op, uns: bool, x: nat, e: Expr)

  type Store = map<nat, word>

  function Get(s: Store, x: nat): word { if x in s then s[x] else 0 }

  /** A value and the store after all side effects, or nothing where C defines nothing. */
  datatype Res = Undef | Val(v: word, s: Store)

  function Eval(e: Expr, s: Store): Res
  {
    match e
    case Const(v) => Val(v, s)
    case Var(x) => Val(Get(s, x), s)
    case Bin(op, uns, l, r) =>
      var a := Eval(l, s);
      if a.Undef? then Undef
      else
        var b := Eval(r, a.s);
        if b.Undef? then Undef else
        var c := Apply(op, uns, a.v, b.v);
        if c.None? then Undef else Val(c.value, b.s)
    case Neg(d) =>
      var a := Eval(d, s);
      if a.Undef? then Undef else Val(ToWord(-(a.v as int)), a.s)
    case Com(d) =>
      var a := Eval(d, s);
      if a.Undef? then Undef else Val(0xffff - a.v, a.s)
    case Not(d) =>
      var a := Eval(d, s);
      if a.Undef? then Undef else Val(Truth(a.v == 0), a.s)
    case Logic(conj, l, r) =>
      var a := Eval(l, s);
      if a.Undef? then Undef
      else if (a.v != 0) != conj then Val(Truth(!conj), a.s)
      else
        var b := Eval(r, a.s);
        if b.Undef? then Undef else Val(Truth(b.v != 0), b.s)
    case Comma(l, r) =>
      var a := Eval(l, s);
      if a.Undef? then Undef else Eval(r, a.s)
    case Cond(c, l, r) =>
      var a := Eval(c, s);
      if a.Undef? then Undef else Eval(if a.v != 0 then l else r, a.s)
    case Assign(x, d) =>
      var a := Eval(d, s);
      if a.Undef? then Undef else Val(a.v, a.s[x := a.v])
    case OpAssign(kind, op, uns, x, d) =>
      var b := Eval(d, s);
      if b.Undef? then Undef
      else
        var a := Get(b.s, x);
        var c := Apply(op, uns, a, b.v);
        if c.None? then Undef else Val(if kind.Post? then a else c.value, b.s[x := c.value])
  }

  /** Variables that an expression may assign, and variables it may look at or assign. */
  function Writes(e: Expr): set<nat>
  {
    match e
    case Const(_) => {}
    case Var(_) => {}
    case Bin(_, _, l, r) => Writes(l) + Writes(r)
    case Neg(d) => Writes(d)
    case Com(d) => Writes(d)
    case Not(d) => Writes(d)
    case Logic(_, l, r) => Writes(l) + Writes(r)
    case Comma(l, r) => Writes(l) + Writes(r)
    case Cond(c, l, r) => Writes(c) + Writes(l) + Writes(r)
    case Assign(x, d) => {x} + Writes(d)
    case OpAssign(_, _, _, x, d) => {x} + Writes(d)
  }

  function Touches(e: Expr): set<nat>
  {
    match e
    case Const(_) => {}
    case Var(x) => {x}
    case Bin(_, _, l, r) => Touches(l) + Touches(r)
    case Neg(d) => Touches(d)
    case Com(d) => Touches(d)
    case Not(d) => Touches(d)
    case Logic(_, l, r) => Touches(l) + Touches(r)
    case Comma(l, r) => Touches(l) + Touches(r)
    case Cond(c, l, r) => Touches(c) + Touches(l) + Touches(r)
    case Assign(x, d) => {x} + Touches(d)
    case OpAssign(_, _, _, x, d) => {x} + Touches(d)
  }

  /** An expression changes no variable outside Writes. */
  lemma {:induction false} OnlyWrites(e: Expr, s: Store, x: nat)
    requires Eval(e, s).Val? && x !in Writes(e)
    ensures Get(Eval(e, s).s, x) == Get(s, x)
  {
    hide Apply;
    match e
    case Const(_) =>
    case Var(_) =>
    case Bin(_, _, l, r) => OnlyWrites(l, s, x); OnlyWrites(r, Eval(l, s).s, x);
    case Neg(d) => OnlyWrites(d, s, x);
    case Com(d) => OnlyWrites(d, s, x);
    case Not(d) => OnlyWrites(d, s, x);
    case Logic(conj, l, r) =>
      OnlyWrites(l, s, x);
      if (Eval(l, s).v != 0) == conj { OnlyWrites(r, Eval(l, s).s, x); }
    case Comma(l, r) => OnlyWrites(l, s, x); OnlyWrites(r, Eval(l, s).s, x);
    case Cond(c, l, r) => OnlyWrites(c, s, x); OnlyWrites(if Eval(c, s).v != 0 then l else r, Eval(c, s).s, x);
    case Assign(_, d) => OnlyWrites(d, s, x);
    case OpAssign(_, _, _, _, d) => OnlyWrites(d, s, x);
  }

  // ---------- C's operators in terms of each other ----------

  lemma NumZero(w: word, uns: bool)
    ensures Num(w, uns) == 0 <==> w == 0
  {
    WordSize();
    PatSmall(w, BITS);
    hide Pat;
  }

  /** !e is e == 0. */
  lemma NotIsEqual(e: Expr, uns: bool, s: Store)
    ensures Eval(Not(e), s) == Eval(Bin(Eq, uns, e, Const(0)), s)
  {
    var a := Eval(e, s);
    if a.Val? {
      NumZero(a.v, uns);
      NumZero(0, uns);
      WordSize();
      PatSmall(1, BITS);
      PatSmall(0, BITS);
      hide Num, Pat;
    }
  }

  /** A difference of words, whatever their signs are taken to be. */
  lemma Differs(a: word, b: word, uns: bool)
    ensures Apply(Sub, uns, a, b) == Some(ToWord(a - b))
  {
    hide Pow2, Pat;
    WrapInRange(a, BITS, uns);
    WrapInRange(b, BITS, uns);
    PatSum(Num(a, uns), Num(b, uns), a, b, BITS);
    WrapInRange(Num(a, uns) - Num(b, uns), BITS, uns);
  }

  /** -e is 0 - e and ~e is ~0 - e. */
  lemma MinusIsSub(e: Expr, uns: bool, s: Store)
    ensures Eval(Neg(e), s) == Eval(Bin(Sub, uns, Const(0), e), s)
    ensures Eval(Com(e), s) == Eval(Bin(Sub, uns, Const(0xffff), e), s)
  {
    hide Apply, Pat, Pow2;
    var a := Eval(e, s);
    if a.Val? {
      Differs(0, a.v, uns);
      Differs(0xffff, a.v, uns);
      WordSize();
      PatSmall(0xffff - a.v, BITS);
    }
  }

  /** l && r is l ? (r ? 1 : 0) : 0, and l || r is l ? 1 : (r ? 1 : 0): r is left alone if l decides. */
  lemma LogicIsCond(l: Expr, r: Expr, s: Store)
    ensures Eval(Logic(true, l, r), s) == Eval(Cond(l, Cond(r, Const(1), Const(0)), Const(0)), s)
    ensures Eval(Logic(false, l, r), s) == Eval(Cond(l, Const(1), Cond(r, Const(1), Const(0))), s)
  {
    if Eval(l, s).Val? {
      Truthful(r, Eval(l, s).s);
    }
  }

  /** r ? 1 : 0 is the truth of r. */
  lemma Truthful(r: Expr, s: Store)
    ensures Eval(Cond(r, Const(1), Const(0)), s)
         == if Eval(r, s).Undef? then Undef else Val(Truth(Eval(r, s).v != 0), Eval(r, s).s)
  {
    var a := Eval(r, s);
    if a.Val? {
      assert Eval(Const(1), a.s) == Val(1, a.s) && Eval(Const(0), a.s) == Val(0, a.s);
    }
  }

  /** !(l && r) is !l || !r. */
  lemma DeMorgan(conj: bool, l: Expr, r: Expr, s: Store)
    ensures Eval(Not(Logic(conj, l, r)), s) == Eval(Logic(!conj, Not(l), Not(r)), s)
  {
  }

  /** l, r is l ? r : r. */
  lemma CommaIsCond(l: Expr, r: Expr, s: Store)
    ensures Eval(Comma(l, r), s) == Eval(Cond(l, r, r), s)
  {
  }

  /** x op= e, which is also ++x, is x = x op e where e leaves x alone; x++ does the same but has the old value. */
  lemma OpAssignIsAssign(kind: Kind, op: Op, uns: bool, x: nat, e: Expr, s: Store)
    requires x !in Writes(e)
    ensures var p, q := Eval(OpAssign(kind, op, uns, x, e), s), Eval(Assign(x, Bin(op, uns, Var(x), e)), s);
      && (p.Val? <==> q.Val?)
      && (p.Val? ==> p.s == q.s && p.v == if kind.Post? then Get(s, x) else q.v)
  {
    hide Apply, Writes, Get;
    var b := Eval(e, s);
    assert Eval(Var(x), s) == Val(Get(s, x), s);
    assert b.Undef? ==> Eval(Bin(op, uns, Var(x), e), s) == Undef;
    if b.Val? {
      OnlyWrites(e, s, x);
      assert Eval(Bin(op, uns, Var(x), e), s)
          == var c := Apply(op, uns, Get(s, x), b.v); if c.None? then Undef else Val(c.value, b.s);
    }
  }

  // ---------- evaluation in another order ----------

  predicate Agree(x: set<nat>, s: Store, u: Store) { forall y :: y in x ==> Get(s, y) == Get(u, y) }

  /** Results agree: the same value, and stores that agree on the variables in x. */
  predicate Alike(x: set<nat>, p: Res, q: Res)
  {
    p.Val? && q.Val? && p.v == q.v && Agree(x, p.s, q.s)
  }

  /** What an expression does depends only on the variables that it touches. */
  lemma {:induction false} OnlyTouches(e: Expr, x: set<nat>, s: Store, u: Store)
    requires Touches(e) <= x && Agree(x, s, u) && Eval(e, s).Val?
    ensures Alike(x, Eval(e, s), Eval(e, u))
  {
    hide Apply;
    match e
    case Const(_) =>
    case Var(_) =>
    case Bin(_, _, l, r) => OnlyTouches(l, x, s, u); OnlyTouches(r, x, Eval(l, s).s, Eval(l, u).s);
    case Neg(d) => OnlyTouches(d, x, s, u);
    case Com(d) => OnlyTouches(d, x, s, u);
    case Not(d) => OnlyTouches(d, x, s, u);
    case Logic(conj, l, r) =>
      OnlyTouches(l, x, s, u);
      if (Eval(l, s).v != 0) == conj { OnlyTouches(r, x, Eval(l, s).s, Eval(l, u).s); }
    case Comma(l, r) => OnlyTouches(l, x, s, u); OnlyTouches(r, x, Eval(l, s).s, Eval(l, u).s);
    case Cond(c, l, r) =>
      OnlyTouches(c, x, s, u);
      OnlyTouches(if Eval(c, s).v != 0 then l else r, x, Eval(c, s).s, Eval(c, u).s);
    case Assign(_, d) => OnlyTouches(d, x, s, u);
    case OpAssign(_, _, _, _, d) => OnlyTouches(d, x, s, u);
  }

  /** Declared variables stay the declared ones. */
  lemma {:induction false} SameVariables(e: Expr, s: Store)
    requires Touches(e) <= s.Keys && Eval(e, s).Val?
    ensures Eval(e, s).s.Keys == s.Keys
  {
    hide Apply;
    match e
    case Const(_) =>
    case Var(_) =>
    case Bin(_, _, l, r) => SameVariables(l, s); SameVariables(r, Eval(l, s).s);
    case Neg(d) => SameVariables(d, s);
    case Com(d) => SameVariables(d, s);
    case Not(d) => SameVariables(d, s);
    case Logic(conj, l, r) =>
      SameVariables(l, s);
      if (Eval(l, s).v != 0) == conj { SameVariables(r, Eval(l, s).s); }
    case Comma(l, r) => SameVariables(l, s); SameVariables(r, Eval(l, s).s);
    case Cond(c, l, r) => SameVariables(c, s); SameVariables(if Eval(c, s).v != 0 then l else r, Eval(c, s).s);
    case Assign(_, d) => SameVariables(d, s);
    case OpAssign(_, _, _, _, d) => SameVariables(d, s);
  }

  lemma {:induction false} WritesTouched(e: Expr)
    ensures Writes(e) <= Touches(e)
  {
    match e
    case Const(_) =>
    case Var(_) =>
    case Bin(_, _, l, r) => WritesTouched(l); WritesTouched(r);
    case Neg(d) => WritesTouched(d);
    case Com(d) => WritesTouched(d);
    case Not(d) => WritesTouched(d);
    case Logic(_, l, r) => WritesTouched(l); WritesTouched(r);
    case Comma(l, r) => WritesTouched(l); WritesTouched(r);
    case Cond(c, l, r) => WritesTouched(c); WritesTouched(l); WritesTouched(r);
    case Assign(_, d) => WritesTouched(d);
    case OpAssign(_, _, _, _, d) => WritesTouched(d);
  }

  /** Neither expression assigns what the other touches. */
  predicate Independent(l: Expr, r: Expr)
  {
    Writes(l) !! Touches(r) && Writes(r) !! Touches(l)
  }

  /** Independent expressions can be evaluated in either order. */
  lemma EitherOrder(l: Expr, r: Expr, s: Store)
    requires Independent(l, r) && Touches(l) <= s.Keys && Touches(r) <= s.Keys
    requires Eval(l, s).Val? && Eval(r, Eval(l, s).s).Val?
    ensures Eval(r, s).Val? && Eval(l, Eval(r, s).s).Val?
    ensures Eval(r, s).v == Eval(r, Eval(l, s).s).v && Eval(l, Eval(r, s).s).v == Eval(l, s).v
    ensures Eval(l, Eval(r, s).s).s == Eval(r, Eval(l, s).s).s
  {
    hide Eval;
    var a := Eval(l, s);
    var b := Eval(r, a.s);
    forall y | y in Touches(r) ensures Get(a.s, y) == Get(s, y) { OnlyWrites(l, s, y); }
    OnlyTouches(r, Touches(r), a.s, s);
    var c := Eval(r, s);
    forall y | y in Touches(l) ensures Get(c.s, y) == Get(s, y) { OnlyWrites(r, s, y); }
    OnlyTouches(l, Touches(l), s, c.s);
    var d := Eval(l, c.s);
    SameVariables(l, s);
    SameVariables(r, a.s);
    SameVariables(r, s);
    SameVariables(l, c.s);
    WritesTouched(l);
    WritesTouched(r);
    forall y | y in s.Keys ensures Get(d.s, y) == Get(b.s, y) {
      if y in Writes(r) {
        OnlyWrites(l, c.s, y);
      } else {
        OnlyWrites(r, a.s, y);
        if y !in Touches(l) {
          OnlyWrites(r, s, y);
          OnlyWrites(l, s, y);
          OnlyWrites(l, c.s, y);
        }
      }
    }
    assert d.s == b.s by {
      forall y | y in s.Keys ensures d.s[y] == b.s[y] { assert Get(d.s, y) == Get(b.s, y); }
    }
  }
}
