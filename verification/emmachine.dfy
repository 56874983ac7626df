/** The part of the EM stack machine that expressions use. */
module EmMachine {
  import opened Wrappers
  import opened TargetArith
  import opened CExpr

  datatype Instr =
    | Loc(v: word)
    | Lol(x: nat)
    | Stl(x: nat)
    | Dup
    | Arith(op: Op, uns: bool)
    | Ngi
    | Not1
    /** cmi and cmu: minus one, zero or one for less, equal or greater. */
    | Cmp(uns: bool)
    /** tlt to tne, and zlt to zne: test the word on the stack against zero. */
    | Tst(op: Op)
    | Zbr(op: Op, l: nat)
    | Bra(l: nat)
    | Lab(l: nat)

  /** The stack, top first, and the variables. */
  datatype St = St(k: seq<word>, s: Store)

  /** What one instruction does: on to the next, a jump, or nothing defined. */
  datatype Act = Next(st: St) | Goto(l: nat, st: St) | Stop

  function CmpResult(uns: bool, a: word, b: word): word
  {
    if Num(a, uns) < Num(b, uns) then 0xffff else Truth(Num(a, uns) > Num(b, uns))
  }

  predicate Zero(op: Op, v: word) { Compare(op, Num(v, false), 0) }

  function Do(i: Instr, st: St): Act
  {
    var k := st.k;
    match i
    case Loc(v) => Next(St([v] + k, st.s))
    case Lol(x) => Next(St([Get(st.s, x)] + k, st.s))
    case Stl(x) => if |k| < 1 then Stop else Next(St(k[1..], st.s[x := k[0]]))
    case Dup => if |k| < 1 then Stop else Next(St([k[0]] + k, st.s))
    case Arith(op, uns) =>
      if |k| < 2 || IsRel(op) then Stop
      else
        var r := Apply(op, uns, k[1], k[0]);
        if r.None? then Stop else Next(St([r.value] + k[2..], st.s))
    case Ngi => if |k| < 1 then Stop else Next(St([ToWord(-(k[0] as int))] + k[1..], st.s))
    case Not1 => if |k| < 1 then Stop else Next(St([(0xffff - k[0]) as word] + k[1..], st.s))
    case Cmp(uns) => if |k| < 2 then Stop else Next(St([CmpResult(uns, k[1], k[0])] + k[2..], st.s))
    case Tst(op) => if |k| < 1 then Stop else Next(St([Truth(Zero(op, k[0]))] + k[1..], st.s))
    case Zbr(op, l) =>
      if |k| < 1 then Stop
      else if Zero(op, k[0]) then Goto(l, St(k[1..], st.s)) else Next(St(k[1..], st.s))
    case Bra(l) => Goto(l, st)
    case Lab(_) => Next(st)
  }

  // ---------- the machine with its program counter ----------

  datatype Config = Config(pc: nat, st: St)

  /** Where label l stands; |p| if nowhere. */
  function Find(p: seq<Instr>, l: nat): (i: nat)
    ensures i <= |p| && (i < |p| ==> p[i] == Lab(l)) && forall j :: 0 <= j < i ==> p[j] != Lab(l)
  {
    if p == [] || p[0] == Lab(l) then 0 else 1 + Find(p[1..], l)
  }

  /** One step of program p; a stuck or finished machine makes none. */
  function Step(p: seq<Instr>, c: Config): Option<Config>
  {
    if c.pc >= |p| then None
    else
      match Do(p[c.pc], c.st)
      case Next(st) => Some(Config(c.pc + 1, st))
      case Goto(l, st) => if Find(p, l) < |p| then Some(Config(Find(p, l), st)) else None
      case Stop => None
  }

  ghost predicate Reaches(p: seq<Instr>, c: Config, d: Config, n: nat)
    decreases n
  {
    if n == 0 then c == d else Step(p, c).Some? && Reaches(p, Step(p, c).value, d, n - 1)
  }

  // ---------- pieces of code that only jump forward ----------

  /** How a run through a piece of code ends: at its end, with a jump to a label outside, or undefined. */
  datatype Out = Fall(st: St) | Exit(l: nat, st: St) | Stuck

  function Exec(c: seq<Instr>, st: St): Out
    decreases |c|
  {
    if c == [] then Fall(st)
    else
      match Do(c[0], st)
      case Next(u) => Exec(c[1..], u)
      case Goto(l, u) => Jump(c[1..], l, u)
      case Stop => Stuck
  }

  /** Go on behind label l in what is left of the piece. */
  function Jump(c: seq<Instr>, l: nat, st: St): Out
    decreases |c|
  {
    if c == [] then Exit(l, st) else if c[0] == Lab(l) then Exec(c[1..], st) else Jump(c[1..], l, st)
  }

  function Then(o: Out, c: seq<Instr>): Out
  {
    match o
    case Fall(st) => Exec(c, st)
    case Exit(l, st) => Jump(c, l, st)
    case Stuck => Stuck
  }

  /** Pieces compose. */
  lemma {:induction false} ExecSeq(c: seq<Instr>, d: seq<Instr>, st: St)
    ensures Exec(c + d, st) == Then(Exec(c, st), d)
    decreases |c|
  {
    if c == [] {
      assert c + d == d;
    } else {
      assert (c + d)[0] == c[0] && (c + d)[1..] == c[1..] + d;
      match Do(c[0], st)
      case Next(u) => ExecSeq(c[1..], d, u);
      case Goto(l, u) => JumpSeq(c[1..], d, l, u);
      case Stop =>
    }
  }

  lemma {:induction false} JumpSeq(c: seq<Instr>, d: seq<Instr>, l: nat, st: St)
    ensures Jump(c + d, l, st) == Then(Jump(c, l, st), d)
    decreases |c|
  {
    if c == [] {
      assert c + d == d;
    } else {
      assert (c + d)[0] == c[0] && (c + d)[1..] == c[1..] + d;
      if c[0] == Lab(l) {
        ExecSeq(c[1..], d, st);
      } else {
        JumpSeq(c[1..], d, l, st);
      }
    }
  }

  /** Label l is not in the piece. */
  predicate Lacks(c: seq<Instr>, l: nat) { forall i :: 0 <= i < |c| ==> c[i] != Lab(l) }

  lemma {:induction false} JumpPast(c: seq<Instr>, l: nat, st: St)
    requires Lacks(c, l)
    ensures Jump(c, l, st) == Exit(l, st)
    decreases |c|
  {
    if c != [] {
      JumpPast(c[1..], l, st);
    }
  }

  /** No label stands twice in a program. */
  predicate Distinct(p: seq<Instr>)
  {
    forall i, j :: 0 <= i < j < |p| && p[i].Lab? && p[j].Lab? ==> p[i].l != p[j].l
  }

  lemma Found(p: seq<Instr>, i: nat, l: nat)
    requires Distinct(p) && i < |p| && p[i] == Lab(l)
    ensures Find(p, l) == i
  {
  }

  /** A piece inside a program with distinct labels runs on the machine as it runs by itself: it leads to
      its end, or to the label it exits to. */
  lemma {:induction false} Bridge(p: seq<Instr>, i: nat, j: nat, st: St) returns (n: nat)
    requires i <= j <= |p| && Distinct(p)
    ensures Exec(p[i..j], st).Fall? ==> Reaches(p, Config(i, st), Config(j, Exec(p[i..j], st).st), n)
    ensures var o := Exec(p[i..j], st);
      o.Exit? && Find(p, o.l) < |p| ==> Reaches(p, Config(i, st), Config(Find(p, o.l), o.st), n)
    decreases j - i
  {
    n := 0;
    if i < j {
      var c := p[i..j];
      assert c[1..] == p[i + 1..j];
      match Do(p[i], st)
      case Next(u) =>
        var m := Bridge(p, i + 1, j, u);
        n := m + 1;
      case Goto(l, u) =>
        var m := BridgeJump(p, i + 1, j, l, u);
        n := if Find(p, l) < |p| then m + 1 else 0;
      case Stop =>
    }
  }

  lemma {:induction false} BridgeJump(p: seq<Instr>, i: nat, j: nat, l: nat, st: St) returns (n: nat)
    requires i <= j <= |p| && Distinct(p)
    ensures var o := Jump(p[i..j], l, st);
      && (o.Fall? ==> Find(p, l) < |p| && Reaches(p, Config(Find(p, l), st), Config(j, o.st), n))
      && (o.Exit? && Find(p, o.l) < |p| ==>
            Find(p, l) < |p| && Reaches(p, Config(Find(p, l), st), Config(Find(p, o.l), o.st), n))
    decreases j - i
  {
    hide Find, Distinct, Exec;
    n := 0;
    if i < j {
      var c := p[i..j];
      assert c[1..] == p[i + 1..j];
      if p[i] == Lab(l) {
        var m := Bridge(p, i + 1, j, st);
        Found(p, i, l);
        n := m + 1;
      } else {
        n := BridgeJump(p, i + 1, j, l, st);
      }
    }
  }

  // ---------- runs through a few instructions ----------

  function After(a: Act): Out
  {
    match a
    case Next(u) => Fall(u)
    case Goto(l, u) => Exit(l, u)
    case Stop => Stuck
  }

  lemma ExecOne(i: Instr, c: seq<Instr>, st: St)
    ensures Exec([i] + c, st) == Then(After(Do(i, st)), c)
    ensures Exec([i], st) == After(Do(i, st))
    ensures Exec([], st) == Fall(st)
  {
    assert ([i] + c)[1..] == c;
  }

  lemma JumpOne(i: Instr, c: seq<Instr>, l: nat, st: St)
    ensures Jump([i] + c, l, st) == if i == Lab(l) then Exec(c, st) else Jump(c, l, st)
    ensures Jump([], l, st) == Exit(l, st)
  {
    assert ([i] + c)[1..] == c;
  }

  lemma LabOne(n: nat, l: nat, u: St)
    ensures Jump([Lab(n)], l, u) == (if l == n then Fall(u) else Exit(l, u)) && Exec([Lab(n)], u) == Fall(u)
    ensures Exec([], u) == Fall(u) && Jump([], l, u) == Exit(l, u)
    ensures Exec([Bra(n)], u) == Exit(n, u) && Jump([Bra(n)], l, u) == Exit(l, u)
  {
    JumpOne(Lab(n), [], l, u);
    JumpOne(Bra(n), [], l, u);
    ExecOne(Lab(n), [], u);
    ExecOne(Bra(n), [], u);
    assert [Lab(n)] + [] == [Lab(n)] && [Bra(n)] + [] == [Bra(n)];
  }

  /** Comparing to minus one, zero or one and testing that against zero is the comparison itself. */
  lemma CmpZero(op: Op, uns: bool, a: word, b: word)
    requires IsRel(op)
    ensures Apply(op, uns, a, b) == Some(Truth(Zero(op, CmpResult(uns, a, b))))
  {
    WordSize();
    assert Pow2(15) == 0x8000;
    hide Pow2;
    PatSmall(0, BITS);
    PatSmall(1, BITS);
    PatSmall(0xffff, BITS);
  }

  lemma ZeroIsZero(v: word)
    ensures Zero(Eq, v) <==> v == 0
  {
    WordSize();
    assert Pow2(15) == 0x8000;
    hide Pow2;
    PatSmall(v, BITS);
  }
}
