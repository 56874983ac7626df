/** ch3bin, ch3mon and opnd2test: how the front end builds expression trees, folding constants and
    swapping operands as it goes. */
module TreeBuilder {
  import opened Wrappers
  import opened TargetArith
  import opened CExpr
  import opened EvalCode
  import ConstFold
  import EM = EmMachine

  /** A tree with its flag for side effects, which survives when the operand that had them is dropped. */
  datatype Tree = Tree(e: Expr, side: bool)

  function Max(a: nat, b: nat): nat { if a > b then a else b }

  /** ex_depth */
  function Depth(e: Expr): nat
  {
    match e
    case Const(_) => 0
    case Var(_) => 0
    case Bin(_, _, l, r) => Max(Depth(l), Depth(r)) + 1
    case Neg(d) => Depth(d) + 1
    case Com(d) => Depth(d) + 1
    case Not(d) => Depth(d) + 1
    case Logic(_, l, r) => Max(Depth(l), Depth(r)) + 1
    case Comma(l, r) => Max(Depth(l), Depth(r)) + 1
    case Cond(c, l, r) => Max(Depth(c), Max(Depth(l), Depth(r)) + 1) + 1
    case Assign(_, d) => Depth(d) + 1
    case OpAssign(_, _, _, _, d) => Depth(d) + 1
  }

  /** arg_switched */
  function ArgSwitched(op: Op): Op
  {
    match op
    case Lt => Gt
    case Gt => Lt
    case Le => Ge
    case Ge => Le
    case _ => op
  }

  /** mk_binop puts the operands of a commutative or relational operator the other way round when that
      needs less stack, when only the right one has side effects, or when the left one is constant. */
  predicate Swaps(op: Op, l: Tree, r: Tree)
  {
    (Commutes(op) || IsRel(op)) && (Depth(r.e) > Depth(l.e) || (r.side && !l.side) || l.e.Const?)
  }

  function MkBin(op: Op, uns: bool, l: Tree, r: Tree): Tree
  {
    if l.e.Const? && r.e.Const? && Apply(op, uns, l.e.v, r.e.v).Some? then
      Tree(Const(Apply(op, uns, l.e.v, r.e.v).value), l.side || r.side)
    else if Swaps(op, l, r) then Tree(Bin(ArgSwitched(op), uns, r.e, l.e), l.side || r.side)
    else Tree(Bin(op, uns, l.e, r.e), l.side || r.side)
  }

  /** opnd2test: anything that is not a test yet is compared with zero; of a comma expression, the right
      operand. */
  function MkTest(e: Expr): Expr
  {
    match e
    case Const(v) => Const(Truth(v != 0))
    case Bin(op, _, _, _) => if IsRel(op) then e else Bin(Ne, false, e, Const(0))
    case Not(_) => e
    case Logic(_, _, _) => e
    case Comma(l, r) => Comma(l, MkTest(r))
    case _ => Bin(Ne, false, e, Const(0))
  }

  function MkComma(l: Tree, r: Tree): Tree
  {
    if l.e.Const? then r else Tree(Comma(l.e, r.e), l.side || r.side)
  }

  /** && and || with a constant operand are folded away, except for what the other operand does. */
  function MkLogic(conj: bool, l: Tree, r: Tree): Tree
  {
    var p, q := MkTest(l.e), MkTest(r.e);
    var side := l.side || r.side;
    if p.Const? then
      if conj == (p.v != 0) then Tree(q, side) else Tree(Const(Truth(!conj)), side)
    else if q.Const? then
      if conj == (q.v != 0) then Tree(p, side) else Tree(Comma(p, Const(if conj then q.v else 1)), side)
    else Tree(Logic(conj, p, q), side)
  }

  function MkNot(d: Tree): Tree
  {
    var p := MkTest(d.e);
    if p.Const? then Tree(Const(Truth(p.v == 0)), d.side) else Tree(Not(p), d.side)
  }

  function MkCond(c: Tree, l: Tree, r: Tree): Tree
  {
    var p := MkTest(c.e);
    if p.Const? then if p.v != 0 then l else r
    else Tree(Cond(p, l.e, r.e), c.side || l.side || r.side)
  }

  /** The tree the front end makes of an expression as written. */
  function Build(e: Expr): Tree
  {
    match e
    case Const(_) => Tree(e, false)
    case Var(_) => Tree(e, false)
    case Bin(op, uns, l, r) => MkBin(op, uns, Build(l), Build(r))
    case Neg(d) => Tree(Neg(Build(d).e), Build(d).side)
    case Com(d) =>
      var p := Build(d);
      Tree(if p.e.Const? then Const(0xffff - p.e.v) else Com(p.e), p.side)
    case Not(d) => MkNot(Build(d))
    case Logic(conj, l, r) => MkLogic(conj, Build(l), Build(r))
    case Comma(l, r) => MkComma(Build(l), Build(r))
    case Cond(c, l, r) => MkCond(Build(c), Build(l), Build(r))
    case Assign(x, d) => Tree(Assign(x, Build(d).e), true)
    case OpAssign(kind, op, uns, x, d) => Tree(OpAssign(kind, op, uns, x, Build(d).e), true)
  }

  /** Expressions that C gives a meaning whatever the order of evaluation: no operand of an unsequenced
      operator assigns what the other one touches. */
  predicate Sequenced(e: Expr)
  {
    match e
    case Const(_) => true
    case Var(_) => true
    case Bin(_, _, l, r) => Sequenced(l) && Sequenced(r) && Independent(l, r)
    case Neg(d) => Sequenced(d)
    case Com(d) => Sequenced(d)
    case Not(d) => Sequenced(d)
    case Logic(_, l, r) => Sequenced(l) && Sequenced(r)
    case Comma(l, r) => Sequenced(l) && Sequenced(r)
    case Cond(c, l, r) => Sequenced(c) && Sequenced(l) && Sequenced(r)
    case Assign(_, d) => Sequenced(d)
    case OpAssign(kind, op, _, x, d) =>
      Sequenced(d) && !IsRel(op) && (kind.OpEq? || d == Const(1)) && x !in Writes(d)
  }

  // ---------- shape ----------

  lemma {:induction false} TestShape(e: Expr)
    ensures IsTest(MkTest(e)) && (Built(e) ==> Built(MkTest(e)))
    ensures Writes(MkTest(e)) == Writes(e) && Touches(MkTest(e)) == Touches(e)
  {
    match e
    case Comma(_, r) => TestShape(r);
    case _ =>
  }

  /** Making one tree of two never adds variables. */
  lemma MakeTouches(op: Op, uns: bool, conj: bool, l: Tree, r: Tree)
    ensures Writes(MkBin(op, uns, l, r).e) <= Writes(l.e) + Writes(r.e)
    ensures Touches(MkBin(op, uns, l, r).e) <= Touches(l.e) + Touches(r.e)
    ensures Writes(MkLogic(conj, l, r).e) <= Writes(l.e) + Writes(r.e)
    ensures Touches(MkLogic(conj, l, r).e) <= Touches(l.e) + Touches(r.e)
  {
    hide MkTest, Apply, Depth;
    TestShape(l.e);
    TestShape(r.e);
  }

  lemma MakeCondTouches(c: Tree, l: Tree, r: Tree)
    ensures Writes(MkCond(c, l, r).e) <= Writes(c.e) + Writes(l.e) + Writes(r.e)
    ensures Touches(MkCond(c, l, r).e) <= Touches(c.e) + Touches(l.e) + Touches(r.e)
    ensures Writes(MkNot(c).e) <= Writes(c.e) && Touches(MkNot(c).e) <= Touches(c.e)
  {
    hide MkTest;
    TestShape(c.e);
  }

  /** Building never adds variables. */
  lemma {:induction false} BuildTouches(e: Expr)
    ensures Writes(Build(e).e) <= Writes(e) && Touches(Build(e).e) <= Touches(e)
  {
    hide MkBin, MkLogic, MkCond, MkNot, Apply;
    match e
    case Const(_) =>
    case Var(_) =>
    case Bin(op, uns, l, r) => BuildTouches(l); BuildTouches(r); MakeTouches(op, uns, true, Build(l), Build(r));
    case Neg(d) => BuildTouches(d);
    case Com(d) => BuildTouches(d);
    case Not(d) => BuildTouches(d); MakeCondTouches(Build(d), Build(d), Build(d));
    case Logic(conj, l, r) => BuildTouches(l); BuildTouches(r); MakeTouches(Add, true, conj, Build(l), Build(r));
    case Comma(l, r) => BuildTouches(l); BuildTouches(r);
    case Cond(c, l, r) => BuildTouches(c); BuildTouches(l); BuildTouches(r); MakeCondTouches(Build(c), Build(l), Build(r));
    case Assign(_, d) => BuildTouches(d);
    case OpAssign(_, _, _, _, d) => BuildTouches(d);
  }

  /** What is built is what EVAL expects. */
  lemma {:induction false} BuildBuilt(e: Expr)
    requires Sequenced(e)
    ensures Built(Build(e).e)
  {
    match e
    case Const(_) =>
    case Var(_) =>
    case Bin(_, _, l, r) => BuildBuilt(l); BuildBuilt(r);
    case Neg(d) => BuildBuilt(d);
    case Com(d) => BuildBuilt(d);
    case Not(d) => BuildBuilt(d); TestShape(Build(d).e);
    case Logic(_, l, r) => BuildBuilt(l); BuildBuilt(r); TestShape(Build(l).e); TestShape(Build(r).e);
    case Comma(l, r) => BuildBuilt(l); BuildBuilt(r);
    case Cond(c, l, r) => BuildBuilt(c); BuildBuilt(l); BuildBuilt(r); TestShape(Build(c).e);
    case Assign(_, d) => BuildBuilt(d);
    case OpAssign(_, _, _, _, d) => BuildBuilt(d); BuildTouches(d);
  }

  // ---------- meaning ----------

  /** A result as a truth value. */
  function TruthOf(r: Res): Res { if r.Undef? then Undef else Val(Truth(r.v != 0), r.s) }

  /** Comparing with zero for inequality gives the truth value. */
  lemma NonZero(uns: bool, v: word)
    ensures Apply(Ne, uns, v, 0) == Some(Truth(v != 0))
  {
    WordSize();
    assert Pow2(15) == 0x8000;
    hide Pow2;
    PatSmall(v, BITS);
    PatSmall(0, BITS);
    PatSmall(1, BITS);
  }

  lemma RelIsTruth(op: Op, uns: bool, a: word, b: word)
    requires IsRel(op)
    ensures Apply(op, uns, a, b) in {Some(0), Some(1)}
  {
    WordSize();
    hide Pow2;
    PatSmall(0, BITS);
    PatSmall(1, BITS);
  }

  /** A test has the truth value of what it was made from. */
  lemma {:induction false} TestMeans(e: Expr, s: Store)
    requires Built(e)
    ensures Eval(MkTest(e), s) == TruthOf(Eval(e, s))
  {
    hide Apply;
    match e
    case Bin(op, uns, l, r) =>
      if Eval(e, s).Val? {
        NonZero(false, Eval(e, s).v);
        if IsRel(op) {
          RelIsTruth(op, uns, Eval(l, s).v, Eval(r, Eval(l, s).s).v);
        }
      }
    case Comma(l, r) =>
      if Eval(l, s).Val? {
        TestMeans(r, Eval(l, s).s);
      }
    case Const(_) =>
    case Not(_) =>
    case Logic(_, _, _) =>
    case _ =>
      if Eval(e, s).Val? {
        NonZero(false, Eval(e, s).v);
      }
  }

  lemma SwitchMeans(op: Op, uns: bool, a: word, b: word)
    requires Commutes(op) || IsRel(op)
    ensures Apply(op, uns, a, b) == Apply(ArgSwitched(op), uns, b, a)
  {
    if Commutes(op) {
      ApplyCommutes(op, uns, a, b);
    } else {
      hide Pat, Pow2, Wrap;
    }
  }

  lemma BinMeans(op: Op, uns: bool, l: Tree, r: Tree, s: Store)
    requires Independent(l.e, r.e) && Touches(l.e) <= s.Keys && Touches(r.e) <= s.Keys
    requires Eval(Bin(op, uns, l.e, r.e), s).Val?
    ensures Eval(MkBin(op, uns, l, r).e, s) == Eval(Bin(op, uns, l.e, r.e), s)
  {
    hide Apply, Independent;
    if Swaps(op, l, r) {
      EitherOrder(l.e, r.e, s);
      SwitchMeans(op, uns, Eval(l.e, s).v, Eval(r.e, Eval(l.e, s).s).v);
    }
  }

  lemma LogicMeans(conj: bool, l: Tree, r: Tree, s: Store)
    requires Built(l.e) && Built(r.e) && Eval(Logic(conj, l.e, r.e), s).Val?
    ensures Eval(MkLogic(conj, l, r).e, s) == Eval(Logic(conj, l.e, r.e), s)
  {
    hide Apply, MkTest;
    var a, p, q := Eval(l.e, s), MkTest(l.e), MkTest(r.e);
    TestMeans(l.e, s);
    if (a.v != 0) == conj {
      TestMeans(r.e, a.s);
    }
    if !p.Const? && q.Const? {
      assert Eval(q, a.s) == Val(q.v, a.s);
    }
    if !p.Const? && q.Const? && (a.v != 0) != conj {
      TestShape(r.e);
      TestMeans(r.e, a.s);
    }
  }

  /** Folding, dropping and swapping keep the meaning: for every expression to which C gives one, what is
      built has the same value and the same side effects. */
  lemma {:induction false} BuildMeans(e: Expr, s: Store)
    requires Sequenced(e) && Touches(e) <= s.Keys && Eval(e, s).Val?
    ensures Eval(Build(e).e, s) == Eval(e, s)
    decreases e, 1
  {
    hide Apply, MkTest, MkBin, MkLogic, MkNot, MkCond;
    match e
    case Const(_) =>
    case Var(_) =>
    case Bin(op, uns, l, r) =>
      BuildMeans(l, s);
      SameVariables(l, s);
      BuildMeans(r, Eval(l, s).s);
      BuildTouches(l);
      BuildTouches(r);
      BinMeans(op, uns, Build(l), Build(r), s);
    case Neg(d) => BuildMeans(d, s);
    case Com(d) => BuildMeans(d, s);
    case Not(_) => BuildChoice(e, s);
    case Logic(conj, l, r) => BuildLogic(conj, l, r, s);
    case Comma(l, r) =>
      BuildMeans(l, s);
      SameVariables(l, s);
      BuildMeans(r, Eval(l, s).s);
    case Cond(_, _, _) => BuildChoice(e, s);
    case Assign(_, d) => BuildMeans(d, s);
    case OpAssign(_, _, _, _, d) => BuildMeans(d, s);
  }

  lemma {:induction false} BuildChoice(e: Expr, s: Store)
    requires Sequenced(e) && Touches(e) <= s.Keys && Eval(e, s).Val? && (e.Not? || e.Cond?)
    ensures Eval(Build(e).e, s) == Eval(e, s)
    decreases e, 0
  {
    hide Apply, MkTest, MkBin, MkLogic;
    var c := if e.Not? then e.e else e.c;
    BuildMeans(c, s);
    BuildBuilt(c);
    TestMeans(Build(c).e, s);
    if e.Cond? {
      SameVariables(c, s);
      BuildMeans(if Eval(c, s).v != 0 then e.l else e.r, Eval(c, s).s);
    }
  }

  lemma {:induction false} BuildLogic(conj: bool, l: Expr, r: Expr, s: Store)
    requires Sequenced(l) && Sequenced(r) && Touches(l) + Touches(r) <= s.Keys && Eval(Logic(conj, l, r), s).Val?
    ensures Eval(MkLogic(conj, Build(l), Build(r)).e, s) == Eval(Logic(conj, l, r), s)
    decreases Logic(conj, l, r), 0
  {
    hide Apply, MkTest, MkBin, MkLogic;
    BuildMeans(l, s);
    SameVariables(l, s);
    var a := Eval(l, s);
    if (a.v != 0) == conj {
      BuildMeans(r, a.s);
    }
    BuildBuilt(l);
    BuildBuilt(r);
    LogicMeans(conj, Build(l), Build(r), s);
  }

  /** From the expression as written to the machine: the code that EVAL makes of the tree that the front
      end builds computes what C says, inside any program with distinct labels. */
  lemma CompilerCorrect(p: seq<EM.Instr>, i: nat, e: Expr, gen: bool, n: nat, st: EM.St) returns (steps: nat)
    requires Sequenced(e) && 0 < n && Touches(e) <= st.s.Keys && Eval(e, st.s).Val?
    requires EM.Distinct(p) && Built(Build(e).e)
    requires var c := Compile(Build(e).e, gen, 0, 0, n).c;
      i + |c| <= |p| && p[i..i + |c|] == c
    ensures var r, j := Eval(e, st.s), i + |Compile(Build(e).e, gen, 0, 0, n).c|;
      EM.Reaches(p, EM.Config(i, st), EM.Config(j, EM.St(if gen then [r.v] + st.k else st.k, r.s)), steps)
  {
    hide Compile, Eval;
    BuildMeans(e, st.s);
    steps := MachineRuns(p, i, Build(e).e, gen, 0, 0, n, st);
  }

  /** cstbin on two ints, on a host with integers of h bits, is the machine's operation on their words. */
  method FoldWords(op: Op, uns: bool, a: word, b: word, h: nat) returns (c: word)
    requires BITS <= h && (op.Shl? || op.Shr? ==> b < BITS)
    ensures Apply(op, uns, a, b).Some? ==> c == Apply(op, uns, a, b).value
  {
    var u := uns && !op.Shl? && !op.Shr?;
    WrapInRange(a, BITS, uns);
    WrapInRange(b, BITS, u);
    ConstFold.RepCanonical(Num(a, uns), 2, uns, h);
    ConstFold.RepCanonical(Num(b, u), 2, u, h);
    var l := new ConstFold.Expr(ConstFold.Rep(Num(a, uns), h), 2, uns, h);
    var r := new ConstFold.Expr(ConstFold.Rep(Num(b, u), h), 2, u, h);
    ShiftWord(b, h);
    l.CstBin(op, r);
    c := ToWord(l.value);
    ConstFold.Operand(l.value, 2, uns, h);
    PatPat(l.value, h, BITS);
  }

  lemma ShiftWord(b: word, h: nat)
    requires BITS <= h
    ensures b < BITS ==> Num(b, false) == b && ConstFold.Rep(Num(b, false), h) == b
  {
    WordSize();
    assert Pow2(15) == 0x8000;
    ConstFold.PowGrows(h - 1, BITS - 1);
    hide Pow2;
    if b < BITS {
      PatSmall(b, BITS);
      WrapSame(b, h, false);
    }
  }
}
