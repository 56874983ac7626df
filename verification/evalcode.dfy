/** EVAL: the code for an expression tree, as a function of the tree and as the procedure that appends
    it to the output. */
module EvalCode {
  import opened Wrappers
  import opened TargetArith
  import opened CExpr
  import opened EmMachine

  /** A tree in the shape of a test: it may be asked to jump instead of leaving a value. */
  predicate IsTest(e: Expr)
  {
    match e
    case Const(_) => true
    case Bin(op, _, _, _) => IsRel(op)
    case Not(_) => true
    case Logic(_, _, _) => true
    case Comma(_, r) => IsTest(r)
    case _ => false
  }

  predicate Commutes(op: Op) { op.Mul? || op.Add? || op.And? || op.Or? || op.Xor? }

  /** op= evaluates its right side first for the operators where it may put the operands in that order;
      ++ and -- never do. */
  predicate RightFirst(kind: Kind, op: Op) { kind.OpEq? && Commutes(op) }

  /** Trees that the front end builds: operands of &&, || and !, and conditions, are tests; an op= that
      looks at its variable before evaluating its right side does not assign it there, which C leaves
      undefined. */
  predicate Built(e: Expr)
  {
    match e
    case Const(_) => true
    case Var(_) => true
    case Bin(_, _, l, r) => Built(l) && Built(r)
    case Neg(d) => Built(d)
    case Com(d) => Built(d)
    case Not(d) => Built(d) && IsTest(d)
    case Logic(_, l, r) => Built(l) && Built(r) && IsTest(l) && IsTest(r)
    case Comma(l, r) => Built(l) && Built(r)
    case Cond(c, l, r) => Built(c) && Built(l) && Built(r) && IsTest(c)
    case Assign(_, d) => Built(d)
    case OpAssign(kind, op, _, x, d) =>
      Built(d) && !IsRel(op) && (kind.OpEq? || d == Const(1)) && (RightFirst(kind, op) || x !in Writes(d))
  }

  /** Code and the next unused label. */
  datatype Code = Code(c: seq<Instr>, n: nat)

  /** The labels a caller may give: none (0), or two; both the same when only effects are wanted. */
  predicate Labels(e: Expr, gen: bool, t: nat, f: nat, n: nat)
  {
    Built(e) && t < n && f < n && (t == 0 <==> f == 0) && (t != 0 ==> IsTest(e) && (gen || t == f))
  }

  /** The load of the variable of an op=, kept twice for the value of x++ and x--. */
  function Load(x: nat, twice: bool): seq<Instr> { if twice then [Lol(x), Dup] else [Lol(x)] }

  /** The instructions of a binary operator behind its operands. */
  function Operate(op: Op, uns: bool, t: nat, f: nat): seq<Instr>
  {
    if !IsRel(op) then [Arith(op, uns)]
    else [Cmp(uns)] + if t != 0 then [Zbr(op, t), Bra(f)] else [Tst(op)]
  }

  /** What follows the operands of && and ||: the value made from the jumps, or just the label to fall
      through to. */
  function LogicTail(gen: bool, t: nat, lt: nat, lf: nat, end: nat): seq<Instr>
  {
    if t != 0 then []
    else if gen then [Lab(lt), Loc(1), Bra(end), Lab(lf), Loc(0), Lab(end)]
    else [Lab(lf)]
  }

  /** The code for e: gen says whether its value is wanted; t and f are the labels to jump to, 0 for none;
      n is the next unused label. */
  function Compile(e: Expr, gen: bool, t: nat, f: nat, n: nat): (r: Code)
    requires Labels(e, gen, t, f, n)
    ensures n <= r.n
  {
    match e
    case Const(v) => Code(if !gen then [] else if t != 0 then [Bra(if v == 0 then f else t)] else [Loc(v)], n)
    case Var(x) => Code(if gen then [Lol(x)] else [], n)
    case Bin(op, uns, l, r) =>
      var a := Compile(l, gen, 0, 0, n);
      var b := Compile(r, gen, 0, 0, a.n);
      Code(a.c + b.c + (if gen then Operate(op, uns, t, f) else []), b.n)
    case Neg(d) => var a := Compile(d, gen, 0, 0, n); Code(a.c + if gen then [Ngi] else [], a.n)
    case Com(d) => var a := Compile(d, gen, 0, 0, n); Code(a.c + if gen then [Not1] else [], a.n)
    case Not(d) =>
      var a := Compile(d, gen, f, t, n);
      Code(a.c + if gen && t == 0 then [Tst(Eq)] else [], a.n)
    case Logic(conj, l, r) =>
      var lf := if t != 0 then f else n + 1;
      var lt := if t != 0 then t else if gen then n + 2 else n + 1;
      var a := Compile(l, true, if conj then n else lt, if conj then lf else n, if t != 0 then n + 1 else lt + 1);
      var b := Compile(r, gen, lt, lf, a.n);
      Code(a.c + [Lab(n)] + b.c + LogicTail(gen, t, lt, lf, b.n), if gen && t == 0 then b.n + 1 else b.n)
    case Comma(l, r) =>
      var a := Compile(l, false, 0, 0, n);
      var b := Compile(r, gen, t, f, a.n);
      Code(a.c + b.c, b.n)
    case Cond(c, l, r) =>
      var a := Compile(c, true, n, n + 1, n + 3);
      var b := Compile(l, gen, 0, 0, a.n);
      var d := Compile(r, gen, 0, 0, b.n);
      Code(a.c + [Lab(n)] + b.c + [Bra(n + 2)] + [Lab(n + 1)] + d.c + [Lab(n + 2)], d.n)
    case Assign(x, d) =>
      var a := Compile(d, true, 0, 0, n);
      Code(a.c + (if gen then [Dup] else []) + [Stl(x)], a.n)
    case OpAssign(kind, op, uns, x, d) =>
      var a := Compile(d, true, 0, 0, n);
      var load := Load(x, gen && kind.Post?);
      var operands := if RightFirst(kind, op) then a.c + load else load + a.c;
      Code(operands + [Arith(op, uns), Stl(x)] + (if gen && !kind.Post? then [Lol(x)] else []), a.n)
  }

  // ---------- the labels a piece of code defines ----------

  predicate Within(c: seq<Instr>, lo: nat, hi: nat)
  {
    forall i :: 0 <= i < |c| && c[i].Lab? ==> lo <= c[i].l < hi
  }

  /** c defines labels of [lo, hi) only, each once. */
  predicate Own(c: seq<Instr>, lo: nat, hi: nat)
  {
    Within(c, lo, hi) && Distinct(c)
  }

  lemma OwnSeq(a: seq<Instr>, b: seq<Instr>, lo: nat, mid: nat, hi: nat)
    requires Own(a, lo, mid) && Own(b, mid, hi) && lo <= mid <= hi
    ensures Own(a + b, lo, hi)
  {
  }

  lemma OwnNone(a: seq<Instr>, lo: nat, hi: nat)
    requires forall i :: 0 <= i < |a| ==> !a[i].Lab?
    ensures Own(a, lo, hi)
  {
  }

  lemma OwnThen(a: seq<Instr>, b: seq<Instr>, lo: nat, hi: nat)
    requires forall i :: 0 <= i < |b| ==> !b[i].Lab?
    requires Own(a, lo, hi)
    ensures Own(a + b, lo, hi) && Own(b + a, lo, hi)
  {
  }

  lemma OwnAdd(a: seq<Instr>, b: seq<Instr>, lo: nat, hi: nat)
    requires Own(a, lo, hi) && Own(b, lo, hi)
    requires forall i, j :: 0 <= i < |a| && 0 <= j < |b| && a[i].Lab? && b[j].Lab? ==> a[i].l != b[j].l
    ensures Own(a + b, lo, hi)
  {
  }

  lemma OwnLacks(c: seq<Instr>, lo: nat, hi: nat, l: nat)
    requires Own(c, lo, hi) && (l < lo || hi <= l)
    ensures Lacks(c, l)
  {
  }

  /** Every label in the code is one of those drawn for it, and stands there once. */
  lemma {:induction false} CompileOwn(e: Expr, gen: bool, t: nat, f: nat, n: nat)
    requires Labels(e, gen, t, f, n)
    ensures Own(Compile(e, gen, t, f, n).c, n, Compile(e, gen, t, f, n).n)
    decreases e, 1
  {
    hide Own;
    match e
    case Const(_) => OwnNone(Compile(e, gen, t, f, n).c, n, n);
    case Var(_) => OwnNone(Compile(e, gen, t, f, n).c, n, n);
    case Bin(op, uns, l, d) =>
      var a := Compile(l, gen, 0, 0, n);
      var b := Compile(d, gen, 0, 0, a.n);
      CompileOwn(l, gen, 0, 0, n);
      CompileOwn(d, gen, 0, 0, a.n);
      OwnSeq(a.c, b.c, n, a.n, b.n);
      OwnThen(a.c + b.c, if gen then Operate(op, uns, t, f) else [], n, b.n);
    case Neg(d) =>
      CompileOwn(d, gen, 0, 0, n);
      OwnThen(Compile(d, gen, 0, 0, n).c, if gen then [Ngi] else [], n, Compile(d, gen, 0, 0, n).n);
    case Com(d) =>
      CompileOwn(d, gen, 0, 0, n);
      OwnThen(Compile(d, gen, 0, 0, n).c, if gen then [Not1] else [], n, Compile(d, gen, 0, 0, n).n);
    case Not(d) =>
      CompileOwn(d, gen, f, t, n);
      OwnThen(Compile(d, gen, f, t, n).c, if gen && t == 0 then [Tst(Eq)] else [], n, Compile(d, gen, f, t, n).n);
    case Comma(l, d) =>
      var a := Compile(l, false, 0, 0, n);
      var b := Compile(d, gen, t, f, a.n);
      CompileOwn(l, false, 0, 0, n);
      CompileOwn(d, gen, t, f, a.n);
      OwnSeq(a.c, b.c, n, a.n, b.n);
    case Assign(x, d) =>
      var a := Compile(d, true, 0, 0, n);
      CompileOwn(d, true, 0, 0, n);
      OwnThen(a.c, if gen then [Dup] else [], n, a.n);
      OwnThen(a.c + (if gen then [Dup] else []), [Stl(x)], n, a.n);
    case Logic(_, _, _) => CompileOwnLogic(e, gen, t, f, n);
    case Cond(_, _, _) => CompileOwnCond(e, gen, t, f, n);
    case OpAssign(_, _, _, _, _) => CompileOwnOpAssign(e, gen, t, f, n);
  }

  lemma {:induction false} CompileOwnLogic(e: Expr, gen: bool, t: nat, f: nat, n: nat)
    requires Labels(e, gen, t, f, n) && e.Logic?
    ensures Own(Compile(e, gen, t, f, n).c, n, Compile(e, gen, t, f, n).n)
    decreases e, 0
  {
    hide Own, LogicTail;
    var lf := if t != 0 then f else n + 1;
    var lt := if t != 0 then t else if gen then n + 2 else n + 1;
    var k := if t != 0 then n + 1 else lt + 1;
    var a := Compile(e.l, true, if e.conj then n else lt, if e.conj then lf else n, k);
    CompileOwn(e.l, true, if e.conj then n else lt, if e.conj then lf else n, k);
    CompileOwn(e.r, gen, lt, lf, a.n);
    var b := Compile(e.r, gen, lt, lf, a.n);
    OwnLogic(a.c, b.c, n, k, a.n, b.n, gen, t, lt, lf);
  }

  lemma {:induction false} CompileOwnCond(e: Expr, gen: bool, t: nat, f: nat, n: nat)
    requires Labels(e, gen, t, f, n) && e.Cond?
    ensures Own(Compile(e, gen, t, f, n).c, n, Compile(e, gen, t, f, n).n)
    decreases e, 0
  {
    hide Own;
    var a := Compile(e.c, true, n, n + 1, n + 3);
    var b := Compile(e.l, gen, 0, 0, a.n);
    CompileOwn(e.c, true, n, n + 1, n + 3);
    CompileOwn(e.l, gen, 0, 0, a.n);
    CompileOwn(e.r, gen, 0, 0, b.n);
    var z := Compile(e.r, gen, 0, 0, b.n);
    OwnCond(a.c, b.c, z.c, n, a.n, b.n, z.n);
  }

  lemma {:induction false} CompileOwnOpAssign(e: Expr, gen: bool, t: nat, f: nat, n: nat)
    requires Labels(e, gen, t, f, n) && e.OpAssign?
    ensures Own(Compile(e, gen, t, f, n).c, n, Compile(e, gen, t, f, n).n)
    decreases e, 0
  {
    hide Own, RightFirst;
    var a := Compile(e.e, true, 0, 0, n);
    CompileOwn(e.e, true, 0, 0, n);
    OwnOpAssign(a.c, Load(e.x, gen && e.kind.Post?), RightFirst(e.kind, e.op), [Arith(e.op, e.uns), Stl(e.x)],
                if gen && !e.kind.Post? then [Lol(e.x)] else [], n, a.n);
  }

  lemma OwnOpAssign(a: seq<Instr>, load: seq<Instr>, first: bool, store: seq<Instr>, more: seq<Instr>, n: nat, m: nat)
    requires Own(a, n, m) && forall i :: 0 <= i < |load + store + more| ==> !(load + store + more)[i].Lab?
    ensures Own((if first then a + load else load + a) + store + more, n, m)
  {
    hide Own;
    var operands := if first then a + load else load + a;
    assert forall i :: 0 <= i < |load| ==> load[i] == (load + store + more)[i];
    assert forall i :: 0 <= i < |store| ==> store[i] == (load + store + more)[|load| + i];
    assert forall i :: 0 <= i < |more| ==> more[i] == (load + store + more)[|load + store| + i];
    OwnThen(a, load, n, m);
    OwnThen(operands, store, n, m);
    OwnThen(operands + store, more, n, m);
  }

  lemma OwnLogic(a: seq<Instr>, b: seq<Instr>, n: nat, k: nat, m: nat, z: nat, gen: bool, t: nat, lt: nat, lf: nat)
    requires n < k <= m <= z && Own(a, k, m) && Own(b, m, z)
    requires t == 0 ==> n < lt < k && n < lf < k && (gen ==> lt != lf)
    ensures Own(a + [Lab(n)] + b + LogicTail(gen, t, lt, lf, z), n, if gen && t == 0 then z + 1 else z)
  {
    var tail := LogicTail(gen, t, lt, lf, z);
    var head := a + [Lab(n)] + b;
    assert forall i :: 0 <= i < |head| && head[i].Lab? ==> head[i].l == n || k <= head[i].l < z;
    assert forall i :: 0 <= i < |tail| && tail[i].Lab? ==> t == 0 && tail[i].l in {lt, lf, z};
    assert Own(head, n, z);
    assert Distinct(tail);
    OwnAdd(head, tail, n, if gen && t == 0 then z + 1 else z);
  }

  lemma OwnCond(a: seq<Instr>, b: seq<Instr>, d: seq<Instr>, n: nat, m: nat, y: nat, z: nat)
    requires n + 3 <= m <= y <= z && Own(a, n + 3, m) && Own(b, m, y) && Own(d, y, z)
    ensures Own(a + [Lab(n)] + b + [Bra(n + 2)] + [Lab(n + 1)] + d + [Lab(n + 2)], n, z)
  {
    var c1 := a + [Lab(n)];
    OwnAdd(a, [Lab(n)], n, m);
    OwnSeq(c1, b, n, m, y);
    OwnNone([Bra(n + 2)], y, y);
    OwnSeq(c1 + b, [Bra(n + 2)], n, y, y);
    var c2 := c1 + b + [Bra(n + 2)];
    assert forall i :: 0 <= i < |c2| && c2[i].Lab? ==> c2[i].l == n || n + 3 <= c2[i].l < y;
    OwnAdd(c2, [Lab(n + 1)], n, y);
    var c3 := c2 + [Lab(n + 1)];
    OwnSeq(c3, d, n, y, z);
    var c4 := c3 + d;
    assert forall i :: 0 <= i < |c4| && c4[i].Lab? ==> c4[i].l == n || c4[i].l == n + 1 || n + 3 <= c4[i].l < z;
    OwnAdd(c4, [Lab(n + 2)], n, z);
  }

  // ---------- how the pieces run ----------

  /** How a piece must end for an expression with value v and final store s. */
  ghost predicate Good(o: Out, gen: bool, t: nat, f: nat, k: seq<word>, v: word, s: Store)
  {
    if t == 0 then o == Fall(St(if gen then [v] + k else k, s))
    else if gen then o == Exit(if v != 0 then t else f, St(k, s))
    else o == Fall(St(k, s)) || o == Exit(t, St(k, s))
  }

  lemma OperateRuns(op: Op, uns: bool, t: nat, f: nat, a: word, b: word, st: St)
    requires Apply(op, uns, a, b).Some? && (t != 0 ==> IsRel(op))
    ensures Good(Exec(Operate(op, uns, t, f), St([b, a] + st.k, st.s)), true, t, f, st.k, Apply(op, uns, a, b).value, st.s)
  {
    hide Exec, Jump, Apply, CmpResult, Zero;
    var u := St([b, a] + st.k, st.s);
    assert u.k[2..] == st.k;
    if !IsRel(op) {
      ExecOne(Arith(op, uns), [], u);
    } else {
      CmpZero(op, uns, a, b);
      var m := CmpResult(uns, a, b);
      var w := St([m] + st.k, st.s);
      assert w.k[1..] == st.k;
      var rest := if t != 0 then [Zbr(op, t), Bra(f)] else [Tst(op)];
      ExecOne(Cmp(uns), rest, u);
      if t != 0 {
        assert rest == [Zbr(op, t)] + [Bra(f)];
        ExecOne(Zbr(op, t), [Bra(f)], w);
        ExecOne(Bra(f), [], st);
        JumpOne(Bra(f), [], t, st);
        assert [Bra(f)] + [] == [Bra(f)];
      } else {
        ExecOne(Tst(op), [], w);
      }
    }
  }

  /** The tail of && and || turns the jump into the value. */
  lemma TailRuns(gen: bool, t: nat, lt: nat, lf: nat, end: nat, o: Out, k: seq<word>, v: word, s: Store)
    requires t == 0 && (gen ==> lt != lf && lt != end && lf != end) && (!gen ==> lt == lf)
    requires if gen then o == Exit(if v != 0 then lt else lf, St(k, s)) else o == Fall(St(k, s)) || o == Exit(lf, St(k, s))
    ensures Good(Then(o, LogicTail(gen, t, lt, lf, end)), gen, 0, 0, k, Truth(v != 0), s)
  {
    hide Exec, Jump;
    var st := St(k, s);
    if gen {
      var z2 := [Loc(0)] + [Lab(end)];
      var z1 := [Lab(lf)] + z2;
      var o2 := [Loc(1)] + ([Bra(end)] + z1);
      assert LogicTail(gen, t, lt, lf, end) == [Lab(lt)] + o2;
      JumpOne(Lab(lt), o2, lt, st);
      JumpOne(Lab(lt), o2, lf, st);
      ExecOne(Loc(1), [Bra(end)] + z1, st);
      JumpOne(Loc(1), [Bra(end)] + z1, lf, st);
      var st1, st0 := St([1] + k, s), St([0] + k, s);
      ExecOne(Bra(end), z1, st1);
      JumpOne(Bra(end), z1, lf, st);
      JumpOne(Lab(lf), z2, end, st1);
      JumpOne(Lab(lf), z2, lf, st);
      JumpOne(Loc(0), [Lab(end)], end, st1);
      ExecOne(Loc(0), [Lab(end)], st);
      LabOne(end, end, st1);
      LabOne(end, end, st0);
    } else {
      LabOne(lf, lf, st);
    }
  }

  /** && and ||, given how the code of the operands runs. */
  lemma LogicRuns(ca: seq<Instr>, cb: seq<Instr>, conj: bool, gen: bool, t: nat, f: nat, n: nat, lt: nat, lf: nat,
                  end: nat, st: St, a: word, s: Store, b: Res)
    requires lt != n && lf != n && Lacks(cb, lt) && Lacks(cb, lf)
    requires if t != 0 then lt == t && lf == f && lt != 0 else if gen then lt != lf && lt < end && lf < end else lt == lf
    requires lt != 0 && (t != 0 && !gen ==> t == f)
    requires Exec(ca, st) == Exit(if a != 0 then (if conj then n else lt) else if conj then lf else n, St(st.k, s))
    requires (a != 0) == conj ==> b.Val? && Good(Exec(cb, St(st.k, s)), gen, lt, lf, st.k, b.v, b.s)
    ensures var o := Exec(ca + [Lab(n)] + cb + LogicTail(gen, t, lt, lf, end), st);
      if (a != 0) == conj then Good(o, gen, t, f, st.k, Truth(b.v != 0), b.s)
      else Good(o, gen, t, f, st.k, Truth(!conj), s)
  {
    hide Exec, Jump;
    var tail, u := LogicTail(gen, t, lt, lf, end), St(st.k, s);
    ExecSeq(ca + [Lab(n)] + cb, tail, st);
    ExecSeq(ca + [Lab(n)], cb, st);
    ExecSeq(ca, [Lab(n)], st);
    LabOne(n, Exec(ca, st).l, u);
    if (a != 0) == conj {
      var o := Exec(cb, u);
      if t == 0 {
        TailRuns(gen, t, lt, lf, end, o, st.k, b.v, b.s);
      } else {
        LabOne(n, t, St(st.k, b.s));
        LabOne(n, f, St(st.k, b.s));
      }
    } else {
      var l := if conj then lf else lt;
      JumpPast(cb, l, u);
      if t == 0 {
        TailRuns(gen, t, lt, lf, end, Exit(l, u), st.k, Truth(!conj), s);
      } else {
        LabOne(n, l, u);
      }
    }
  }

  /** ?:, given how the code of the condition and of the chosen branch runs. */
  lemma CondRuns(ca: seq<Instr>, cb: seq<Instr>, cd: seq<Instr>, n: nat, st: St, a: word, s: Store, z: St)
    requires Lacks(cb, n + 1) && Lacks(cd, n + 2)
    requires Exec(ca, st) == Exit(if a != 0 then n else n + 1, St(st.k, s))
    requires Exec(if a != 0 then cb else cd, St(st.k, s)) == Fall(z)
    ensures Exec(ca + [Lab(n)] + cb + [Bra(n + 2)] + [Lab(n + 1)] + cd + [Lab(n + 2)], st) == Fall(z)
  {
    hide Exec, Jump;
    var u := St(st.k, s);
    var p1 := ca + [Lab(n)];
    var p2 := p1 + cb;
    var p3 := p2 + [Bra(n + 2)];
    var p4 := p3 + [Lab(n + 1)];
    var p5 := p4 + cd;
    ExecSeq(p5, [Lab(n + 2)], st);
    ExecSeq(p4, cd, st);
    ExecSeq(p3, [Lab(n + 1)], st);
    ExecSeq(p2, [Bra(n + 2)], st);
    ExecSeq(p1, cb, st);
    ExecSeq(ca, [Lab(n)], st);
    LabOne(n, if a != 0 then n else n + 1, u);
    if a != 0 {
      LabOne(n + 2, n + 2, z);
      LabOne(n + 1, n + 2, z);
      JumpPast(cd, n + 2, z);
    } else {
      JumpPast(cb, n + 1, u);
      LabOne(n + 2, n + 1, u);
      LabOne(n + 1, n + 1, u);
      LabOne(n + 2, n + 2, z);
    }
  }

  /** An operation on the top of the stack behind a piece that leaves a value there. */
  lemma UnaryRuns(c: seq<Instr>, i: Instr, st: St, a: word, r: word, s: Store)
    requires Exec(c, st) == Fall(St([a] + st.k, s))
    requires Do(i, St([a] + st.k, s)) == Next(St([r] + st.k, s))
    ensures Exec(c + [i], st) == Fall(St([r] + st.k, s))
  {
    hide Exec, Jump, Do;
    ExecSeq(c, [i], st);
    ExecOne(i, [], St([a] + st.k, s));
  }

  lemma AssignRuns(c: seq<Instr>, gen: bool, x: nat, st: St, a: word, s: Store)
    requires Exec(c, st) == Fall(St([a] + st.k, s))
    ensures Good(Exec(c + (if gen then [Dup] else []) + [Stl(x)], st), gen, 0, 0, st.k, a, s[x := a])
  {
    hide Exec, Jump;
    var dup, u := if gen then [Dup] else [], St([a] + st.k, s);
    var w := if gen then St([a] + ([a] + st.k), s) else u;
    ExecSeq(c + dup, [Stl(x)], st);
    ExecSeq(c, dup, st);
    ExecOne(Dup, [], u);
    ExecOne(Stl(x), [], w);
    assert w.k[1..] == if gen then [a] + st.k else st.k;
  }

  /** The operators that may find their operands in either order. */
  lemma ApplyCommutes(op: Op, uns: bool, a: word, b: word)
    requires Commutes(op)
    ensures Apply(op, uns, a, b) == Apply(op, uns, b, a)
  {
    hide Pat, Pow2, Bits, Wrap;
    var p, q := Num(a, uns), Num(b, uns);
    assert p * q == q * p;
    if op.And? || op.Or? || op.Xor? {
      BitsCommute(op, Pat(p, BITS), Pat(q, BITS), BITS);
    }
  }

  lemma LoadRuns(x: nat, twice: bool, st: St)
    ensures var a := Get(st.s, x);
      Exec(Load(x, twice), st) == Fall(St(if twice then [a] + ([a] + st.k) else [a] + st.k, st.s))
  {
    hide Exec, Jump;
    var u := St([Get(st.s, x)] + st.k, st.s);
    assert [Lol(x), Dup] == [Lol(x)] + [Dup];
    ExecOne(Lol(x), [Dup], st);
    ExecOne(Dup, [], u);
  }

  /** What the operands of op= leave: both of them, above the old value that x++ and x-- keep. */
  function Operands(first: bool, a: word, b: word, below: seq<word>): seq<word>
  {
    if first then [a, b] + below else [b, a] + below
  }

  /** The operands of op= behind each other, in both orders of loading. */
  lemma OperandsRun(c: seq<Instr>, first: bool, twice: bool, x: nat, st: St, b: word, s: Store, below: seq<word>)
    requires first ==> !twice && Exec(c, st) == Fall(St([b] + st.k, s))
    requires below == if twice then [Get(s, x)] + st.k else st.k
    requires !first ==> Get(s, x) == Get(st.s, x)
    requires !first ==> Exec(c, St([Get(s, x)] + below, st.s)) == Fall(St([b] + ([Get(s, x)] + below), s))
    ensures Exec(if first then c + Load(x, twice) else Load(x, twice) + c, st)
         == Fall(St(Operands(first, Get(s, x), b, below), s))
  {
    hide Exec, Jump, Load, Get;
    if first {
      LoadBehind(c, x, st, b, s);
    } else {
      LoadBefore(c, twice, x, st, b, s, below);
    }
  }

  lemma LoadBehind(c: seq<Instr>, x: nat, st: St, b: word, s: Store)
    requires Exec(c, st) == Fall(St([b] + st.k, s))
    ensures Exec(c + Load(x, false), st) == Fall(St([Get(s, x), b] + st.k, s))
  {
    hide Exec, Jump, Load, Get;
    var a := Get(s, x);
    LoadRuns(x, false, St([b] + st.k, s));
    ExecSeq(c, Load(x, false), st);
    assert [a] + ([b] + st.k) == [a, b] + st.k;
  }

  lemma LoadBefore(c: seq<Instr>, twice: bool, x: nat, st: St, b: word, s: Store, below: seq<word>)
    requires below == (if twice then [Get(s, x)] + st.k else st.k) && Get(s, x) == Get(st.s, x)
    requires Exec(c, St([Get(s, x)] + below, st.s)) == Fall(St([b] + ([Get(s, x)] + below), s))
    ensures Exec(Load(x, twice) + c, st) == Fall(St([b, Get(s, x)] + below, s))
  {
    hide Exec, Jump, Load, Get;
    var a := Get(s, x);
    LoadRuns(x, twice, st);
    ExecSeq(Load(x, twice), c, st);
    assert [b] + ([a] + below) == [b, a] + below;
  }

  /** The operation of op= and its store. */
  lemma StoreRuns(op: Op, uns: bool, x: nat, p: word, q: word, k: seq<word>, s: Store)
    requires !IsRel(op) && Apply(op, uns, p, q).Some?
    ensures var r := Apply(op, uns, p, q).value;
      Exec([Arith(op, uns), Stl(x)], St([q, p] + k, s)) == Fall(St(k, s[x := r]))
  {
    hide Exec, Jump, Apply;
    var w := St([q, p] + k, s);
    assert [Arith(op, uns), Stl(x)] == [Arith(op, uns)] + [Stl(x)];
    ExecOne(Arith(op, uns), [Stl(x)], w);
    assert w.k[2..] == k;
    var y := St([Apply(op, uns, p, q).value] + k, s);
    ExecOne(Stl(x), [], y);
    assert y.k[1..] == k;
  }

  /** op= behind its operands. */
  lemma OpAssignRuns(c: seq<Instr>, kind: Kind, op: Op, uns: bool, gen: bool, x: nat, st: St, a: word, b: word, s: Store,
                     below: seq<word>)
    requires !IsRel(op) && Apply(op, uns, a, b).Some?
    requires below == if gen && kind.Post? then [a] + st.k else st.k
    requires Exec(c, st) == Fall(St(Operands(RightFirst(kind, op), a, b, below), s))
    ensures var r := Apply(op, uns, a, b).value;
      Good(Exec(c + [Arith(op, uns), Stl(x)] + (if gen && !kind.Post? then [Lol(x)] else []), st),
           gen, 0, 0, st.k, if kind.Post? then a else r, s[x := r])
  {
    hide Exec, Jump, Apply;
    var r, first := Apply(op, uns, a, b).value, RightFirst(kind, op);
    if first {
      ApplyCommutes(op, uns, a, b);
    }
    StoreRuns(op, uns, x, if first then b else a, if first then a else b, below, s);
    ExecSeq(c + [Arith(op, uns), Stl(x)], if gen && !kind.Post? then [Lol(x)] else [], st);
    ExecSeq(c, [Arith(op, uns), Stl(x)], st);
    ExecOne(Lol(x), [], St(below, s[x := r]));
  }

  // ---------- the code does what the expression means ----------

  /** The code for an expression, run from any stack and any store, leaves its value on top of the stack
      when that is wanted, jumps to the label of its truth when labels are given, and otherwise leaves
      the stack alone; its side effects are done in every case. */
  lemma {:induction false} Correct(e: Expr, gen: bool, t: nat, f: nat, n: nat, st: St)
    requires Labels(e, gen, t, f, n) && Eval(e, st.s).Val?
    ensures Good(Exec(Compile(e, gen, t, f, n).c, st), gen, t, f, st.k, Eval(e, st.s).v, Eval(e, st.s).s)
    decreases e, 1
  {
    hide Exec, Jump, Apply, Own;
    var s, k := st.s, st.k;
    match e
    case Const(v) =>
      ExecOne(Loc(v), [], st);
      LabOne(if v == 0 then f else t, 0, st);
    case Var(x) =>
      ExecOne(Lol(x), [], st);
    case Bin(_, _, _, _) => CorrectBin(e, gen, t, f, n, st);
    case Neg(_) => CorrectUnary(e, gen, t, f, n, st);
    case Com(_) => CorrectUnary(e, gen, t, f, n, st);
    case Not(_) => CorrectUnary(e, gen, t, f, n, st);
    case Comma(l, d) =>
      Correct(l, false, 0, 0, n, st);
      var ca := Compile(l, false, 0, 0, n);
      Correct(d, gen, t, f, ca.n, St(k, Eval(l, s).s));
      ExecSeq(ca.c, Compile(d, gen, t, f, ca.n).c, st);
    case Assign(x, d) =>
      Correct(d, true, 0, 0, n, st);
      AssignRuns(Compile(d, true, 0, 0, n).c, gen, x, st, Eval(d, s).v, Eval(d, s).s);
    case Logic(_, _, _) => CorrectLogic(e, gen, t, f, n, st);
    case Cond(_, _, _) => CorrectCond(e, gen, n, st);
    case OpAssign(_, _, _, _, _) => CorrectOpAssign(e, gen, n, st);
  }

  lemma {:induction false} CorrectUnary(e: Expr, gen: bool, t: nat, f: nat, n: nat, st: St)
    requires Labels(e, gen, t, f, n) && Eval(e, st.s).Val? && (e.Neg? || e.Com? || e.Not?)
    ensures Good(Exec(Compile(e, gen, t, f, n).c, st), gen, t, f, st.k, Eval(e, st.s).v, Eval(e, st.s).s)
    decreases e, 0
  {
    hide Exec, Jump, Apply, Own, ToWord, Zero;
    var s, k := st.s, st.k;
    match e
    case Neg(d) =>
      Correct(d, gen, 0, 0, n, st);
      var a, c := Eval(d, s), Compile(d, gen, 0, 0, n).c;
      assert c + [] == c && ([a.v] + k)[1..] == k;
      if gen {
        UnaryRuns(c, Ngi, st, a.v, ToWord(-(a.v as int)), a.s);
      }
    case Com(d) =>
      Correct(d, gen, 0, 0, n, st);
      var a, c := Eval(d, s), Compile(d, gen, 0, 0, n).c;
      assert c + [] == c && ([a.v] + k)[1..] == k;
      if gen {
        UnaryRuns(c, Not1, st, a.v, 0xffff - a.v, a.s);
      }
    case Not(d) =>
      Correct(d, gen, f, t, n, st);
      var a, c := Eval(d, s), Compile(d, gen, f, t, n).c;
      assert c + [] == c && ([a.v] + k)[1..] == k;
      if gen && t == 0 {
        ZeroIsZero(a.v);
        UnaryRuns(c, Tst(Eq), st, a.v, Truth(a.v == 0), a.s);
      }
  }

  lemma {:induction false} CorrectBin(e: Expr, gen: bool, t: nat, f: nat, n: nat, st: St)
    requires Labels(e, gen, t, f, n) && Eval(e, st.s).Val? && e.Bin?
    ensures Good(Exec(Compile(e, gen, t, f, n).c, st), gen, t, f, st.k, Eval(e, st.s).v, Eval(e, st.s).s)
    decreases e, 0
  {
    hide Exec, Jump, Apply, Own, Operate;
    var s, k := st.s, st.k;
    var a, b := Eval(e.l, s), Eval(e.r, Eval(e.l, s).s);
    Correct(e.l, gen, 0, 0, n, st);
    var ca := Compile(e.l, gen, 0, 0, n);
    Correct(e.r, gen, 0, 0, ca.n, St(if gen then [a.v] + k else k, a.s));
    var cb := Compile(e.r, gen, 0, 0, ca.n);
    ExecSeq(ca.c + cb.c, if gen then Operate(e.op, e.uns, t, f) else [], st);
    ExecSeq(ca.c, cb.c, st);
    if gen {
      OperateRuns(e.op, e.uns, t, f, a.v, b.v, St(k, b.s));
      assert [b.v] + ([a.v] + k) == [b.v, a.v] + k;
    } else {
      LabOne(0, 0, St(k, b.s));
    }
  }

  lemma {:induction false} CorrectLogic(e: Expr, gen: bool, t: nat, f: nat, n: nat, st: St)
    requires Labels(e, gen, t, f, n) && Eval(e, st.s).Val? && e.Logic?
    ensures Good(Exec(Compile(e, gen, t, f, n).c, st), gen, t, f, st.k, Eval(e, st.s).v, Eval(e, st.s).s)
    decreases e, 0
  {
    hide Exec, Jump, Apply, Own, Good, LogicTail;
    var s, k, conj := st.s, st.k, e.conj;
    var lf := if t != 0 then f else n + 1;
    var lt := if t != 0 then t else if gen then n + 2 else n + 1;
    var m := if t != 0 then n + 1 else lt + 1;
    var tl, fl := if conj then n else lt, if conj then lf else n;
    var ca := Compile(e.l, true, tl, fl, m);
    var cb := Compile(e.r, gen, lt, lf, ca.n);
    var a := Eval(e.l, s);
    Correct(e.l, true, tl, fl, m, st);
    GoodJump(Exec(ca.c, st), tl, fl, k, a.v, a.s);
    var b := if (a.v != 0) == conj then Eval(e.r, a.s) else Undef;
    if b.Val? {
      Correct(e.r, gen, lt, lf, ca.n, St(k, a.s));
    }
    CompileOwn(e.r, gen, lt, lf, ca.n);
    OwnLacks(cb.c, ca.n, cb.n, lt);
    OwnLacks(cb.c, ca.n, cb.n, lf);
    LogicRuns(ca.c, cb.c, conj, gen, t, f, n, lt, lf, cb.n, st, a.v, a.s, b);
  }

  lemma GoodJump(o: Out, t: nat, f: nat, k: seq<word>, v: word, s: Store)
    requires t != 0 && Good(o, true, t, f, k, v, s)
    ensures o == Exit(if v != 0 then t else f, St(k, s))
  {
  }

  lemma {:induction false} CorrectCond(e: Expr, gen: bool, n: nat, st: St)
    requires Labels(e, gen, 0, 0, n) && Eval(e, st.s).Val? && e.Cond?
    ensures Good(Exec(Compile(e, gen, 0, 0, n).c, st), gen, 0, 0, st.k, Eval(e, st.s).v, Eval(e, st.s).s)
    decreases e, 0
  {
    hide Exec, Jump, Apply, Own;
    var s, k := st.s, st.k;
    var ca := Compile(e.c, true, n, n + 1, n + 3);
    var cb := Compile(e.l, gen, 0, 0, ca.n);
    var cd := Compile(e.r, gen, 0, 0, cb.n);
    Correct(e.c, true, n, n + 1, n + 3, st);
    var a := Eval(e.c, s);
    CompileOwn(e.l, gen, 0, 0, ca.n);
    CompileOwn(e.r, gen, 0, 0, cb.n);
    OwnLacks(cb.c, ca.n, cb.n, n + 1);
    OwnLacks(cd.c, cb.n, cd.n, n + 2);
    if a.v != 0 {
      Correct(e.l, gen, 0, 0, ca.n, St(k, a.s));
    } else {
      Correct(e.r, gen, 0, 0, cb.n, St(k, a.s));
    }
    var r := Eval(e, s);
    CondRuns(ca.c, cb.c, cd.c, n, st, a.v, a.s, St(if gen then [r.v] + k else k, r.s));
  }

  lemma {:induction false} CorrectOpAssign(e: Expr, gen: bool, n: nat, st: St)
    requires Labels(e, gen, 0, 0, n) && Eval(e, st.s).Val? && e.OpAssign?
    ensures Good(Exec(Compile(e, gen, 0, 0, n).c, st), gen, 0, 0, st.k, Eval(e, st.s).v, Eval(e, st.s).s)
    decreases e, 0
  {
    hide Exec, Jump, Apply;
    var b, c := Eval(e.e, st.s), Compile(e.e, true, 0, 0, n).c;
    var a, first, twice := Get(b.s, e.x), RightFirst(e.kind, e.op), gen && e.kind.Post?;
    var below := if twice then [a] + st.k else st.k;
    if first {
      Correct(e.e, true, 0, 0, n, st);
    } else {
      OnlyWrites(e.e, st.s, e.x);
      Correct(e.e, true, 0, 0, n, St([a] + below, st.s));
    }
    OperandsRun(c, first, twice, e.x, st, b.v, b.s, below);
    OpAssignRuns(if first then c + Load(e.x, twice) else Load(e.x, twice) + c, e.kind, e.op, e.uns, gen, e.x, st, a, b.v, b.s,
                 below);
  }

  /** Inside any program with distinct labels, the EM machine runs from the start of the code to its end,
      or to the label of the expression's truth. */
  lemma MachineRuns(p: seq<Instr>, i: nat, e: Expr, gen: bool, t: nat, f: nat, n: nat, st: St) returns (steps: nat)
    requires Labels(e, gen, t, f, n) && Eval(e, st.s).Val?
    requires Distinct(p) && i + |Compile(e, gen, t, f, n).c| <= |p|
    requires p[i..i + |Compile(e, gen, t, f, n).c|] == Compile(e, gen, t, f, n).c
    requires t != 0 ==> Find(p, t) < |p| && Find(p, f) < |p|
    ensures var r := Eval(e, st.s);
      var j := i + |Compile(e, gen, t, f, n).c|;
      if t == 0 then Reaches(p, Config(i, st), Config(j, St(if gen then [r.v] + st.k else st.k, r.s)), steps)
      else if gen then Reaches(p, Config(i, st), Config(Find(p, if r.v != 0 then t else f), St(st.k, r.s)), steps)
      else exists z :: z in {j, Find(p, t)} && Reaches(p, Config(i, st), Config(z, St(st.k, r.s)), steps)
  {
    hide Exec, Reaches, Compile, Eval;
    Correct(e, gen, t, f, n, st);
    steps := Bridge(p, i, i + |Compile(e, gen, t, f, n).c|, st);
  }
}
