/** EVAL as the compiler runs it: a walk over the tree that appends to the EM output and draws labels. */
module EvalProc {
  import opened TargetArith
  import opened CExpr
  import opened EmMachine
  import opened EvalCode

  lemma Append(a: seq<Instr>, b: seq<Instr>, c: seq<Instr>)
    ensures (a + b) + c == a + (b + c)
  {
  }

  // What Compile is for each form of tree, and that its parts may be compiled.

  lemma UnfoldBin(e: Expr, gen: bool, t: nat, f: nat, n: nat)
    requires Labels(e, gen, t, f, n) && e.Bin?
    ensures Labels(e.l, gen, 0, 0, n)
    ensures var a := Compile(e.l, gen, 0, 0, n);
      && Labels(e.r, gen, 0, 0, a.n)
      && var b := Compile(e.r, gen, 0, 0, a.n);
      Compile(e, gen, t, f, n) == Code(a.c + b.c + (if gen then Operate(e.op, e.uns, t, f) else []), b.n)
  {
  }

  lemma UnfoldUnary(e: Expr, gen: bool, t: nat, f: nat, n: nat)
    requires Labels(e, gen, t, f, n) && (e.Neg? || e.Com? || e.Not?)
    ensures e.Not? || t == 0
    ensures Labels(e.e, gen, f, t, n)
    ensures var a := Compile(e.e, gen, f, t, n);
      var i := match e case Neg(_) => Ngi case Com(_) => Not1 case _ => Tst(Eq);
      Compile(e, gen, t, f, n) == Code(a.c + if gen && t == 0 then [i] else [], a.n)
  {
  }

  lemma UnfoldLogic(e: Expr, gen: bool, t: nat, f: nat, n: nat, lt: nat, lf: nat, k: nat)
    requires Labels(e, gen, t, f, n) && e.Logic?
    requires lf == if t != 0 then f else n + 1
    requires lt == if t != 0 then t else if gen then n + 2 else n + 1
    requires k == if t != 0 then n + 1 else lt + 1
    ensures Labels(e.l, true, if e.conj then n else lt, if e.conj then lf else n, k)
    ensures var a := Compile(e.l, true, if e.conj then n else lt, if e.conj then lf else n, k);
      && Labels(e.r, gen, lt, lf, a.n)
      && var b := Compile(e.r, gen, lt, lf, a.n);
      Compile(e, gen, t, f, n)
      == Code(a.c + [Lab(n)] + b.c + LogicTail(gen, t, lt, lf, b.n), if gen && t == 0 then b.n + 1 else b.n)
  {
  }

  lemma UnfoldComma(e: Expr, gen: bool, t: nat, f: nat, n: nat)
    requires Labels(e, gen, t, f, n) && e.Comma?
    ensures Labels(e.l, false, 0, 0, n)
    ensures var a := Compile(e.l, false, 0, 0, n);
      && Labels(e.r, gen, t, f, a.n)
      && var b := Compile(e.r, gen, t, f, a.n);
      Compile(e, gen, t, f, n) == Code(a.c + b.c, b.n)
  {
  }

  lemma UnfoldCond(e: Expr, gen: bool, n: nat)
    requires Labels(e, gen, 0, 0, n) && e.Cond?
    ensures Labels(e.c, true, n, n + 1, n + 3)
    ensures var a := Compile(e.c, true, n, n + 1, n + 3);
      && Labels(e.l, gen, 0, 0, a.n)
      && var b := Compile(e.l, gen, 0, 0, a.n);
      && Labels(e.r, gen, 0, 0, b.n)
      && var d := Compile(e.r, gen, 0, 0, b.n);
      Compile(e, gen, 0, 0, n)
      == Code(a.c + [Lab(n)] + b.c + [Bra(n + 2)] + [Lab(n + 1)] + d.c + [Lab(n + 2)], d.n)
  {
  }

  lemma UnfoldAssign(e: Expr, gen: bool, n: nat)
    requires Labels(e, gen, 0, 0, n) && (e.Assign? || e.OpAssign?)
    ensures Labels(e.e, true, 0, 0, n)
    ensures var a := Compile(e.e, true, 0, 0, n);
      && (e.Assign? ==> Compile(e, gen, 0, 0, n) == Code(a.c + (if gen then [Dup] else []) + [Stl(e.x)], a.n))
      && (e.OpAssign? ==>
            var load := Load(e.x, gen && e.kind.Post?);
            var operands := if RightFirst(e.kind, e.op) then a.c + load else load + a.c;
            Compile(e, gen, 0, 0, n)
            == Code(operands + [Arith(e.op, e.uns), Stl(e.x)] + (if gen && !e.kind.Post? then [Lol(e.x)] else []), a.n))
  {
  }

  class Emitter {
    var out: seq<Instr>
    /** The next label that text_label hands out. */
    var next: nat

    constructor ()
      ensures out == [] && next == 1
    {
      out, next := [], 1;
    }

    method TextLabel() returns (l: nat)
      modifies this`next
      ensures l == old(next) && next == l + 1
    {
      l := next;
      next := next + 1;
    }

    /** Appends one instruction; base is the output at the start of the expression, c what has been put
        out since. */
    method Emit(i: Instr, ghost base: seq<Instr>, ghost c: seq<Instr>)
      requires out == base + c
      modifies this`out
      ensures out == base + (c + [i])
    {
      out := out + [i];
      Append(base, c, [i]);
    }

    /** EVAL */
    method Eval(e: Expr, gen: bool, t: nat, f: nat, ghost base: seq<Instr>, ghost c: seq<Instr>)
      requires Labels(e, gen, t, f, next) && out == base + c
      modifies this
      ensures out == base + (c + Compile(e, gen, t, f, old(next)).c)
      ensures next == Compile(e, gen, t, f, old(next)).n
      decreases e, 1
    {
      ghost var b := out;
      match e {
        case Const(v) => EvalLeaf(e, gen, t, f);
        case Var(x) => EvalLeaf(e, gen, t, f);
        case Bin(_, _, _, _) => EvalBin(e, gen, t, f);
        case Neg(_) => EvalUnary(e, gen, t, f);
        case Com(_) => EvalUnary(e, gen, t, f);
        case Not(_) => EvalUnary(e, gen, t, f);
        case Logic(_, _, _) => EvalLogic(e, gen, t, f);
        case Comma(_, _) => EvalComma(e, gen, t, f);
        case Cond(_, _, _) => EvalCond(e, gen);
        case Assign(_, _) => EvalAssign(e, gen);
        case OpAssign(_, _, _, _, _) => EvalOpAssign(e, gen);
      }
      Append(base, c, Compile(e, gen, t, f, old(next)).c);
    }

    method EvalLeaf(e: Expr, gen: bool, t: nat, f: nat)
      requires Labels(e, gen, t, f, next) && (e.Const? || e.Var?)
      modifies this`out
      ensures out == old(out) + Compile(e, gen, t, f, next).c && next == Compile(e, gen, t, f, next).n
    {
      ghost var b := out;
      assert b + [] == b;
      if gen {
        if e.Var? {
          Emit(Lol(e.x), b, []);
        } else if t != 0 {
          Emit(Bra(if e.v == 0 then f else t), b, []);
        } else {
          Emit(Loc(e.v), b, []);
        }
      }
    }

    /** The cases '-', '~' and '!'; only '!' is asked to jump, and it swaps the labels. */
    method EvalUnary(e: Expr, gen: bool, t: nat, f: nat)
      requires Labels(e, gen, t, f, next) && (e.Neg? || e.Com? || e.Not?)
      modifies this
      ensures out == old(out) + Compile(e, gen, t, f, old(next)).c
      ensures next == Compile(e, gen, t, f, old(next)).n
      decreases e, 0
    {
      hide Compile, Labels;
      UnfoldUnary(e, gen, t, f, next);
      ghost var base, n := out, next;
      assert base + [] == base;
      Eval(e.e, gen, f, t, base, []);
      ghost var c := [] + Compile(e.e, gen, f, t, n).c;
      if gen && t == 0 {
        Emit(if e.Neg? then Ngi else if e.Com? then Not1 else Tst(Eq), base, c);
      }
    }

    method EvalComma(e: Expr, gen: bool, t: nat, f: nat)
      requires Labels(e, gen, t, f, next) && e.Comma?
      modifies this
      ensures out == old(out) + Compile(e, gen, t, f, old(next)).c
      ensures next == Compile(e, gen, t, f, old(next)).n
      decreases e, 0
    {
      hide Compile, Labels;
      UnfoldComma(e, gen, t, f, next);
      ghost var base, n := out, next;
      assert base + [] == base;
      Eval(e.l, false, 0, 0, base, []);
      Eval(e.r, gen, t, f, base, [] + Compile(e.l, false, 0, 0, n).c);
    }

    method EvalBin(e: Expr, gen: bool, t: nat, f: nat)
      requires Labels(e, gen, t, f, next) && e.Bin?
      modifies this
      ensures out == old(out) + Compile(e, gen, t, f, old(next)).c
      ensures next == Compile(e, gen, t, f, old(next)).n
      decreases e, 0
    {
      hide Compile, Labels;
      UnfoldBin(e, gen, t, f, next);
      ghost var base, n, c := out, next, [];
      assert base + c == base;
      Eval(e.l, gen, 0, 0, base, c); // operands
      c := c + Compile(e.l, gen, 0, 0, n).c;
      n := next;
      Eval(e.r, gen, 0, 0, base, c);
      c := c + Compile(e.r, gen, 0, 0, n).c;
      if gen {
        EmitOperate(e.op, e.uns, t, f, base, c);
      }
      assert out == base + (c + if gen then Operate(e.op, e.uns, t, f) else []);
    }

    /** The instructions for an operator whose operands are on the stack: a comparison jumps or leaves a
        truth value. */
    method EmitOperate(op: Op, uns: bool, t: nat, f: nat, ghost base: seq<Instr>, ghost c: seq<Instr>)
      requires out == base + c
      modifies this`out
      ensures out == base + (c + Operate(op, uns, t, f))
    {
      if IsRel(op) {
        Emit(Cmp(uns), base, c);
        if t != 0 {
          Emit(Zbr(op, t), base, c + [Cmp(uns)]); // compare
          Emit(Bra(f), base, c + [Cmp(uns)] + [Zbr(op, t)]);
        } else {
          Emit(Tst(op), base, c + [Cmp(uns)]); // truthvalue
        }
      } else {
        Emit(Arith(op, uns), base, c);
      }
    }

    /** The cases AND and OR. */
    method EvalLogic(e: Expr, gen: bool, t: nat, f: nat)
      requires Labels(e, gen, t, f, next) && e.Logic?
      modifies this
      ensures out == old(out) + Compile(e, gen, t, f, old(next)).c
      ensures next == Compile(e, gen, t, f, old(next)).n
      decreases e, 0
    {
      hide Compile, Labels, LogicTail;
      ghost var base, c := out, [];
      assert base + c == base;
      var lFalse, lTrue;
      var lMaybe := TextLabel();
      if t != 0 {
        lFalse, lTrue := f, t;
      } else {
        lFalse := TextLabel();
        if gen {
          lTrue := TextLabel();
        } else {
          lTrue := lFalse;
        }
      }
      ghost var n := next;
      UnfoldLogic(e, gen, t, f, lMaybe, lTrue, lFalse, n);
      Eval(e.l, true, if e.conj then lMaybe else lTrue, if e.conj then lFalse else lMaybe, base, c);
      c := c + Compile(e.l, true, if e.conj then lMaybe else lTrue, if e.conj then lFalse else lMaybe, n).c;
      Emit(Lab(lMaybe), base, c);
      c := c + [Lab(lMaybe)];
      n := next;
      Eval(e.r, gen, lTrue, lFalse, base, c);
      c := c + Compile(e.r, gen, lTrue, lFalse, n).c;
      EmitTail(gen, t, lTrue, lFalse, base, c);
    }

    method EmitTail(gen: bool, t: nat, lTrue: nat, lFalse: nat, ghost base: seq<Instr>, ghost c: seq<Instr>)
      requires out == base + c
      modifies this
      ensures out == base + (c + LogicTail(gen, t, lTrue, lFalse, old(next)))
      ensures next == if gen && t == 0 then old(next) + 1 else old(next)
    {
      if gen && t == 0 {
        var lEnd := TextLabel();
        Emit(Lab(lTrue), base, c);
        Emit(Loc(1), base, c + [Lab(lTrue)]);
        Emit(Bra(lEnd), base, c + [Lab(lTrue)] + [Loc(1)]);
        Emit(Lab(lFalse), base, c + [Lab(lTrue)] + [Loc(1)] + [Bra(lEnd)]);
        Emit(Loc(0), base, c + [Lab(lTrue)] + [Loc(1)] + [Bra(lEnd)] + [Lab(lFalse)]);
        Emit(Lab(lEnd), base, c + [Lab(lTrue)] + [Loc(1)] + [Bra(lEnd)] + [Lab(lFalse)] + [Loc(0)]);
        assert c + [Lab(lTrue)] + [Loc(1)] + [Bra(lEnd)] + [Lab(lFalse)] + [Loc(0)] + [Lab(lEnd)]
            == c + [Lab(lTrue), Loc(1), Bra(lEnd), Lab(lFalse), Loc(0), Lab(lEnd)];
      } else if t == 0 {
        Emit(Lab(lFalse), base, c);
      } else {
        assert c + [] == c;
      }
    }

    /** The case '?'. */
    method EvalCond(e: Expr, gen: bool)
      requires Labels(e, gen, 0, 0, next) && e.Cond?
      modifies this
      ensures out == old(out) + Compile(e, gen, 0, 0, old(next)).c
      ensures next == Compile(e, gen, 0, 0, old(next)).n
      decreases e, 0
    {
      hide Compile, Labels;
      UnfoldCond(e, gen, next);
      ghost var base, c := out, [];
      assert base + c == base;
      var lTrue := TextLabel();
      var lFalse := TextLabel();
      var lEnd := TextLabel();
      ghost var n := next;
      Eval(e.c, true, lTrue, lFalse, base, c);
      c := c + Compile(e.c, true, lTrue, lFalse, n).c;
      Emit(Lab(lTrue), base, c);
      c := c + [Lab(lTrue)];
      n := next;
      Eval(e.l, gen, 0, 0, base, c);
      c := c + Compile(e.l, gen, 0, 0, n).c;
      Emit(Bra(lEnd), base, c);
      c := c + [Bra(lEnd)];
      Emit(Lab(lFalse), base, c);
      c := c + [Lab(lFalse)];
      n := next;
      Eval(e.r, gen, 0, 0, base, c);
      c := c + Compile(e.r, gen, 0, 0, n).c;
      Emit(Lab(lEnd), base, c);
    }

    method EvalAssign(e: Expr, gen: bool)
      requires Labels(e, gen, 0, 0, next) && e.Assign?
      modifies this
      ensures out == old(out) + Compile(e, gen, 0, 0, old(next)).c
      ensures next == Compile(e, gen, 0, 0, old(next)).n
      decreases e, 0
    {
      hide Compile, Labels;
      UnfoldAssign(e, gen, next);
      ghost var base, c := out, [];
      assert base + c == base;
      Eval(e.e, true, 0, 0, base, c);
      c := c + Compile(e.e, true, 0, 0, old(next)).c;
      if gen {
        Emit(Dup, base, c);
      }
      c := c + if gen then [Dup] else [];
      Emit(Stl(e.x), base, c);
    }

    /** The cases of the assignment operators, for a left side that is a simple variable. */
    method EvalOpAssign(e: Expr, gen: bool)
      requires Labels(e, gen, 0, 0, next) && e.OpAssign?
      modifies this
      ensures out == old(out) + Compile(e, gen, 0, 0, old(next)).c
      ensures next == Compile(e, gen, 0, 0, old(next)).n
      decreases e, 0
    {
      hide Compile, Labels, Load;
      UnfoldAssign(e, gen, next);
      ghost var base, c, d := out, [], Compile(e.e, true, 0, 0, next).c;
      assert base + c == base;
      var rightDone := false;
      if e.kind.OpEq? && Commutes(e.op) {
        rightDone := true;
        Eval(e.e, true, 0, 0, base, c);
        c := c + d;
      }
      EmitLoad(e.x, gen && e.kind.Post?, base, c);
      c := c + Load(e.x, gen && e.kind.Post?);
      if !rightDone {
        Eval(e.e, true, 0, 0, base, c);
        c := c + d;
      }
      Emit(Arith(e.op, e.uns), base, c); // assop
      Emit(Stl(e.x), base, c + [Arith(e.op, e.uns)]);
      assert c + [Arith(e.op, e.uns)] + [Stl(e.x)] == c + [Arith(e.op, e.uns), Stl(e.x)];
      c := c + [Arith(e.op, e.uns), Stl(e.x)];
      if gen && !e.kind.Post? {
        Emit(Lol(e.x), base, c);
      }
      assert out == base + (c + if gen && !e.kind.Post? then [Lol(e.x)] else []);
    }

    method EmitLoad(x: nat, twice: bool, ghost base: seq<Instr>, ghost c: seq<Instr>)
      requires out == base + c
      modifies this`out
      ensures out == base + (c + Load(x, twice))
    {
      Emit(Lol(x), base, c);
      if twice {
        Emit(Dup, base, c + [Lol(x)]);
        assert c + [Lol(x)] + [Dup] == c + [Lol(x), Dup];
      }
    }

    /** An expression statement or an initialiser on its own: what is put out runs as the expression means. */
    method Whole(e: Expr, gen: bool, ghost st: St) returns (ghost steps: nat)
      requires out == [] && next > 0 && Built(e) && CExpr.Eval(e, st.s).Val?
      modifies this
      ensures var r := CExpr.Eval(e, st.s);
        Reaches(out, Config(0, st), Config(|out|, St(if gen then [r.v] + st.k else st.k, r.s)), steps)
    {
      hide CExpr.Eval, Compile, Reaches;
      ghost var n := next;
      Eval(e, gen, 0, 0, [], []);
      assert out == Compile(e, gen, 0, 0, n).c;
      CompileOwn(e, gen, 0, 0, n);
      assert out[0..0 + |out|] == out;
      steps := MachineRuns(out, 0, e, gen, 0, 0, n, st);
    }
  }
}
