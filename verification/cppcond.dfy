/** Conditional groups: what #if, #elif, #else and #endif mean on properly nested lines. */
module CondSpec {

  /** Condition c may depend on everything kept before it: definitions are among the kept lines. */
  type Conditions = (nat, seq<nat>) -> bool

  /** The lines kept so far and the conditions evaluated so far. */
  datatype Kept = Kept(out: seq<nat>, asked: seq<nat>)

  datatype Group = Plain(t: nat) | Cond(c: nat, body: seq<Group>, rest: Chain)

  /** What follows a conditional body: #endif, or an #elif with its body and what follows, or an #else. */
  datatype Chain = End | Elif(c: nat, body: seq<Group>, rest: Chain) | Else(body: seq<Group>)

  function KeepAll(e: Conditions, gs: seq<Group>, k: Kept): Kept
  {
    if gs == [] then k else KeepAll(e, gs[1..], KeepOne(e, gs[0], k))
  }

  /** The first body whose condition holds is kept; later conditions are not even evaluated. */
  function KeepOne(e: Conditions, g: Group, k: Kept): Kept
  {
    match g
    case Plain(t) => k.(out := k.out + [t])
    case Cond(c, body, rest) =>
      var a := k.(asked := k.asked + [c]);
      if e(c, k.out) then KeepAll(e, body, a) else KeepChain(e, rest, a)
  }

  /** None of the bodies before was kept. */
  function KeepChain(e: Conditions, ch: Chain, k: Kept): Kept
  {
    match ch
    case End => k
    case Elif(c, body, rest) =>
      var a := k.(asked := k.asked + [c]);
      if e(c, k.out) then KeepAll(e, body, a) else KeepChain(e, rest, a)
    case Else(body) => KeepAll(e, body, k)
  }

  datatype Line = Text(t: nat) | IfLine(c: nat) | ElifLine(c: nat) | ElseLine | EndifLine

  function Lines(gs: seq<Group>): seq<Line>
  {
    if gs == [] then [] else LinesOf(gs[0]) + Lines(gs[1..])
  }

  function LinesOf(g: Group): seq<Line>
  {
    match g
    case Plain(t) => [Text(t)]
    case Cond(c, body, rest) => [IfLine(c)] + (Lines(body) + ChainLines(rest))
  }

  function ChainLines(ch: Chain): seq<Line>
  {
    match ch
    case End => [EndifLine]
    case Elif(c, body, rest) => [ElifLine(c)] + (Lines(body) + ChainLines(rest))
    case Else(body) => [ElseLine] + (Lines(body) + [EndifLine])
  }

  function Max(a: int, b: int): int { if a > b then a else b }

  /** How deep conditionals are nested. */
  function Depth(gs: seq<Group>): nat
  {
    if gs == [] then 0 else Max(DepthOf(gs[0]), Depth(gs[1..]))
  }

  function DepthOf(g: Group): nat
  {
    match g
    case Plain(_) => 0
    case Cond(_, body, rest) => 1 + Max(Depth(body), ChainDepth(rest))
  }

  /** How much deeper the bodies of a chain nest than the chain itself. */
  function ChainDepth(ch: Chain): nat
  {
    match ch
    case End => 0
    case Elif(_, body, rest) => Max(Depth(body), ChainDepth(rest))
    case Else(body) => Depth(body)
  }
}

/** Conditional groups as the preprocessor goes through them: a nesting counter, an else mark for each
    level, and a mode for skipping. */
module CondMachine {
  import opened CondSpec

  const IFDEPTH: int := 256

  /** Skipping to the #endif of the given level, or also to an #elif or #else that takes over. */
  datatype Mode = Normal | Skipping(toEndif: bool, level: int) | Dead

  /** nestlevel, ifstack (true: an #else has been met), the highest index written to it, the mode, what has
      been kept and asked, and the number of errors reported. */
  datatype State = State(nest: int, marks: map<int, bool>, top: int, mode: Mode, kept: Kept, errors: nat)

  function Mark(m: State, i: int): bool { i in m.marks && m.marks[i] }

  function SetMark(m: State, b: bool): State
  {
    m.(marks := m.marks[m.nest := b], top := Max(m.top, m.nest))
  }

  /** push_if */
  function PushIf(m: State): State
  {
    if m.nest >= IFDEPTH then m.(mode := Dead) else SetMark(m.(nest := m.nest + 1), false)
  }

  function Error(m: State, b: bool): State { if b then m.(errors := m.errors + 1) else m }

  /** ifexpr */
  function Ask(m: State, c: nat): State { m.(kept := m.kept.(asked := m.kept.asked + [c])) }

  /** One line, with base the nesting level at the start of the file. */
  function Step(e: Conditions, base: int, m: State, l: Line): State
  {
    match m.mode
    case Dead => m
    case Normal => NormalStep(e, base, m, l)
    case Skipping(toEndif, level) => SkipStep(e, m, l, toEndif, level)
  }

  function NormalStep(e: Conditions, base: int, m: State, l: Line): State
  {
    match l
    case Text(t) => m.(kept := m.kept.(out := m.kept.out + [t]))
    case IfLine(c) =>
      var p := PushIf(m);
      if p.mode.Dead? then p
      else if e(c, p.kept.out) then Ask(p, c) else Ask(p, c).(mode := Skipping(false, p.nest))
    case ElifLine(_) =>
      if m.nest <= base then Error(m, true)
      else
        var p := PushIf(Error(m, Mark(m, m.nest)).(nest := m.nest - 1));
        if p.mode.Dead? then p else p.(mode := Skipping(true, p.nest))
    case ElseLine =>
      if m.nest <= base then Error(m, true)
      else SetMark(Error(m, Mark(m, m.nest)), true).(mode := Skipping(true, m.nest))
    case EndifLine => if m.nest <= base then Error(m, true) else m.(nest := m.nest - 1)
  }

  /** skip_block on one line */
  function SkipStep(e: Conditions, m: State, l: Line, toEndif: bool, level: int): State
  {
    match l
    case Text(_) => m
    case IfLine(_) => PushIf(m)
    case ElifLine(c) =>
      var x := Error(m, Mark(m, m.nest));
      if !toEndif && m.nest == level then
        var p := PushIf(x.(nest := m.nest - 1));
        if p.mode.Dead? then p
        else if e(c, p.kept.out) then Ask(p, c).(mode := Normal) else Ask(p, c)
      else x
    case ElseLine =>
      var x := SetMark(Error(m, Mark(m, m.nest)), true);
      if !toEndif && m.nest == level then x.(mode := Normal) else x
    case EndifLine =>
      if m.nest == level then m.(nest := m.nest - 1, mode := Normal) else m.(nest := m.nest - 1)
  }

  function Run(e: Conditions, base: int, m: State, ls: seq<Line>): State
    decreases |ls|
  {
    if ls == [] then m else Run(e, base, Step(e, base, m, ls[0]), ls[1..])
  }

  lemma {:induction false} RunAppend(e: Conditions, base: int, m: State, a: seq<Line>, b: seq<Line>)
    ensures Run(e, base, m, a + b) == Run(e, base, Run(e, base, m, a), b)
    decreases |a|
  {
    if a == [] {
      assert a + b == b;
    } else {
      assert (a + b)[0] == a[0] && (a + b)[1..] == a[1..] + b;
      RunAppend(e, base, Step(e, base, m, a[0]), a[1..], b);
    }
  }

  lemma RunOne(e: Conditions, base: int, m: State, l: Line, rest: seq<Line>)
    ensures Run(e, base, m, [l] + rest) == Run(e, base, Step(e, base, m, l), rest)
    ensures Run(e, base, m, [l]) == Step(e, base, m, l)
  {
    assert ([l] + rest)[1..] == rest && [l][1..] == [];
  }

  /** z is m with the given level, mode and kept lines, no new error, the marks up to level n untouched, and
      the mark array written up to index top. */
  ghost predicate Became(m: State, z: State, nest: int, mode: Mode, kept: Kept, n: int, top: int)
  {
    && z.nest == nest && z.mode == mode && z.kept == kept && z.errors == m.errors && z.top == Max(m.top, top)
    && forall i :: i <= n ==> Mark(z, i) == Mark(m, i)
  }

  /** The #endif behind an #else. */
  lemma Close(e: Conditions, base: int, m: State, p: State, q: State)
    requires p.marks == m.marks[m.nest := true] && forall i :: i <= m.nest ==> Mark(q, i) == Mark(p, i)
    requires !q.mode.Dead? && q.nest == m.nest && (q.mode.Normal? ==> q.nest > base)
    ensures var z := Run(e, base, q, [EndifLine]);
      && z == q.(nest := q.nest - 1, mode := if q.mode.Skipping? && q.nest == q.mode.level then Normal else q.mode)
      && forall i :: i <= m.nest - 1 ==> Mark(z, i) == Mark(m, i)
  {
    RunOne(e, base, q, EndifLine, []);
    forall i | i <= m.nest - 1 ensures Mark(Run(e, base, q, [EndifLine]), i) == Mark(m, i) {
      assert Mark(q, i) == Mark(p, i);
    }
  }

  // ---------- skipping ----------

  /** Balanced lines are passed over while skipping. */
  lemma {:induction false} SkipAll(e: Conditions, base: int, gs: seq<Group>, m: State)
    requires m.mode.Skipping? && m.nest >= m.mode.level && m.nest + Depth(gs) <= IFDEPTH && m.top >= m.nest
    ensures Became(m, Run(e, base, m, Lines(gs)), m.nest, m.mode, m.kept, m.nest, m.nest + Depth(gs))
    decreases gs, 1
  {
    if gs != [] {
      RunAppend(e, base, m, LinesOf(gs[0]), Lines(gs[1..]));
      SkipOne(e, base, gs[0], m);
      SkipAll(e, base, gs[1..], Run(e, base, m, LinesOf(gs[0])));
    }
  }

  lemma {:induction false} SkipOne(e: Conditions, base: int, g: Group, m: State)
    requires m.mode.Skipping? && m.nest >= m.mode.level && m.nest + DepthOf(g) <= IFDEPTH && m.top >= m.nest
    ensures Became(m, Run(e, base, m, LinesOf(g)), m.nest, m.mode, m.kept, m.nest, m.nest + DepthOf(g))
    decreases g, 0
  {
    match g
    case Plain(t) => RunOne(e, base, m, Text(t), []);
    case Cond(c, body, rest) =>
      RunOne(e, base, m, IfLine(c), Lines(body) + ChainLines(rest));
      var p := Step(e, base, m, IfLine(c));
      RunAppend(e, base, p, Lines(body), ChainLines(rest));
      SkipAll(e, base, body, p);
      SkipInner(e, base, rest, Run(e, base, p, Lines(body)));
  }

  /** The rest of a conditional that began while skipping. */
  lemma {:induction false} SkipInner(e: Conditions, base: int, ch: Chain, m: State)
    requires m.mode.Skipping? && m.nest > m.mode.level && m.nest + ChainDepth(ch) <= IFDEPTH && m.top >= m.nest
    requires !Mark(m, m.nest)
    ensures Became(m, Run(e, base, m, ChainLines(ch)), m.nest - 1, m.mode, m.kept, m.nest - 1, m.nest + ChainDepth(ch))
    decreases ch, 0
  {
    match ch
    case End => RunOne(e, base, m, EndifLine, []);
    case Elif(c, body, rest) =>
      RunOne(e, base, m, ElifLine(c), Lines(body) + ChainLines(rest));
      var p := Step(e, base, m, ElifLine(c));
      RunAppend(e, base, p, Lines(body), ChainLines(rest));
      SkipAll(e, base, body, p);
      SkipInner(e, base, rest, Run(e, base, p, Lines(body)));
    case Else(body) =>
      RunOne(e, base, m, ElseLine, Lines(body) + [EndifLine]);
      var p := Step(e, base, m, ElseLine);
      RunAppend(e, base, p, Lines(body), [EndifLine]);
      SkipAll(e, base, body, p);
      Close(e, base, m, p, Run(e, base, p, Lines(body)));
  }

  /** The rest of a conditional of which a body has been kept: passed over up to its #endif, without
      evaluating anything. */
  lemma {:induction false} SkipTaken(e: Conditions, base: int, ch: Chain, m: State)
    requires m.mode == Skipping(true, m.nest) && m.nest + ChainDepth(ch) <= IFDEPTH && m.top >= m.nest
    requires !Mark(m, m.nest)
    ensures Became(m, Run(e, base, m, ChainLines(ch)), m.nest - 1, Normal, m.kept, m.nest - 1, m.nest + ChainDepth(ch))
    decreases ch, 0
  {
    match ch
    case End => RunOne(e, base, m, EndifLine, []);
    case Elif(c, body, rest) =>
      RunOne(e, base, m, ElifLine(c), Lines(body) + ChainLines(rest));
      var p := Step(e, base, m, ElifLine(c));
      RunAppend(e, base, p, Lines(body), ChainLines(rest));
      SkipAll(e, base, body, p);
      SkipTaken(e, base, rest, Run(e, base, p, Lines(body)));
    case Else(body) =>
      RunOne(e, base, m, ElseLine, Lines(body) + [EndifLine]);
      var p := Step(e, base, m, ElseLine);
      RunAppend(e, base, p, Lines(body), [EndifLine]);
      SkipAll(e, base, body, p);
      Close(e, base, m, p, Run(e, base, p, Lines(body)));
  }

  // ---------- keeping ----------

  /** Properly nested lines: what is kept is what they mean, conditions are evaluated as they mean, the
      nesting level comes back, nothing is reported, and the mark array is written exactly as far as the
      nesting goes. */
  lemma {:induction false} NormalAll(e: Conditions, base: int, gs: seq<Group>, m: State)
    requires m.mode.Normal? && m.nest >= base && m.nest + Depth(gs) <= IFDEPTH && m.top >= m.nest
    ensures Became(m, Run(e, base, m, Lines(gs)), m.nest, Normal, KeepAll(e, gs, m.kept), m.nest, m.nest + Depth(gs))
    decreases gs, 1
  {
    if gs != [] {
      RunAppend(e, base, m, LinesOf(gs[0]), Lines(gs[1..]));
      NormalOne(e, base, gs[0], m);
      NormalAll(e, base, gs[1..], Run(e, base, m, LinesOf(gs[0])));
    }
  }

  lemma {:induction false} NormalOne(e: Conditions, base: int, g: Group, m: State)
    requires m.mode.Normal? && m.nest >= base && m.nest + DepthOf(g) <= IFDEPTH && m.top >= m.nest
    ensures Became(m, Run(e, base, m, LinesOf(g)), m.nest, Normal, KeepOne(e, g, m.kept), m.nest, m.nest + DepthOf(g))
    decreases g, 0
  {
    match g
    case Plain(t) => RunOne(e, base, m, Text(t), []);
    case Cond(c, body, rest) =>
      RunOne(e, base, m, IfLine(c), Lines(body) + ChainLines(rest));
      var p := Step(e, base, m, IfLine(c));
      RunAppend(e, base, p, Lines(body), ChainLines(rest));
      if e(c, m.kept.out) {
        NormalAll(e, base, body, p);
        Finish(e, base, rest, Run(e, base, p, Lines(body)));
      } else {
        SkipAll(e, base, body, p);
        Search(e, base, rest, Run(e, base, p, Lines(body)));
      }
  }

  /** A body has just been kept. */
  lemma {:induction false} Finish(e: Conditions, base: int, ch: Chain, m: State)
    requires m.mode.Normal? && m.nest > base && m.nest + ChainDepth(ch) <= IFDEPTH && m.top >= m.nest
    requires !Mark(m, m.nest)
    ensures Became(m, Run(e, base, m, ChainLines(ch)), m.nest - 1, Normal, m.kept, m.nest - 1, m.nest + ChainDepth(ch))
  {
    match ch
    case End => RunOne(e, base, m, EndifLine, []);
    case Elif(c, body, rest) =>
      RunOne(e, base, m, ElifLine(c), Lines(body) + ChainLines(rest));
      var p := Step(e, base, m, ElifLine(c));
      RunAppend(e, base, p, Lines(body), ChainLines(rest));
      SkipAll(e, base, body, p);
      SkipTaken(e, base, rest, Run(e, base, p, Lines(body)));
    case Else(body) =>
      RunOne(e, base, m, ElseLine, Lines(body) + [EndifLine]);
      var p := Step(e, base, m, ElseLine);
      RunAppend(e, base, p, Lines(body), [EndifLine]);
      SkipAll(e, base, body, p);
      Close(e, base, m, p, Run(e, base, p, Lines(body)));
  }

  /** No body has been kept yet. */
  lemma {:induction false} Search(e: Conditions, base: int, ch: Chain, m: State)
    requires m.mode == Skipping(false, m.nest) && m.nest > base && m.nest + ChainDepth(ch) <= IFDEPTH && m.top >= m.nest
    requires !Mark(m, m.nest)
    ensures Became(m, Run(e, base, m, ChainLines(ch)), m.nest - 1, Normal, KeepChain(e, ch, m.kept), m.nest - 1,
                   m.nest + ChainDepth(ch))
    decreases ch, 1
  {
    match ch
    case End => RunOne(e, base, m, EndifLine, []);
    case Elif(c, body, rest) =>
      RunOne(e, base, m, ElifLine(c), Lines(body) + ChainLines(rest));
      var p := Step(e, base, m, ElifLine(c));
      RunAppend(e, base, p, Lines(body), ChainLines(rest));
      SearchOn(e, base, c, body, rest, m, p);
    case Else(body) =>
      RunOne(e, base, m, ElseLine, Lines(body) + [EndifLine]);
      var p := Step(e, base, m, ElseLine);
      RunAppend(e, base, p, Lines(body), [EndifLine]);
      NormalAll(e, base, body, p);
      Close(e, base, m, p, Run(e, base, p, Lines(body)));
  }

  /** The body of an #elif and what follows, p being the state behind the #elif. */
  lemma {:induction false} SearchOn(e: Conditions, base: int, c: nat, body: seq<Group>, rest: Chain, m: State, p: State)
    requires m.mode == Skipping(false, m.nest) && m.nest > base && !Mark(m, m.nest) && m.top >= m.nest
    requires m.nest + Max(Depth(body), ChainDepth(rest)) <= IFDEPTH && p == Step(e, base, m, ElifLine(c))
    ensures Became(m, Run(e, base, Run(e, base, p, Lines(body)), ChainLines(rest)), m.nest - 1, Normal,
                   KeepChain(e, Elif(c, body, rest), m.kept), m.nest - 1, m.nest + Max(Depth(body), ChainDepth(rest)))
    decreases Elif(c, body, rest), 0
  {
    if e(c, m.kept.out) {
      NormalAll(e, base, body, p);
      Finish(e, base, rest, Run(e, base, p, Lines(body)));
    } else {
      SkipAll(e, base, body, p);
      Search(e, base, rest, Run(e, base, p, Lines(body)));
    }
  }

  // ---------- nesting too deep ----------

  /** A state between two groups or inside a conditional. */
  predicate Open(m: State, base: int)
  {
    && ((m.mode.Normal? && m.nest >= base) || (m.mode.Skipping? && m.nest >= m.mode.level > base))
    && m.nest <= m.top <= IFDEPTH
  }

  /** push_if has called fatal with the mark array written up to its limit. */
  predicate Died(m: State, z: State) { z.mode.Dead? && z.top == IFDEPTH && z.errors == m.errors }

  lemma {:induction false} DeadStays(e: Conditions, base: int, m: State, ls: seq<Line>)
    requires m.mode.Dead?
    ensures Run(e, base, m, ls) == m
    decreases |ls|
  {
    if ls != [] {
      DeadStays(e, base, m, ls[1..]);
    }
  }

  /** Lines that are not too deep, kept or skipped. */
  lemma PassAll(e: Conditions, base: int, gs: seq<Group>, m: State)
    requires Open(m, base) && m.nest + Depth(gs) <= IFDEPTH
    ensures var z := Run(e, base, m, Lines(gs));
      Became(m, z, m.nest, m.mode, z.kept, m.nest, m.nest + Depth(gs)) && Open(z, base)
  {
    if m.mode.Normal? {
      NormalAll(e, base, gs, m);
    } else {
      SkipAll(e, base, gs, m);
    }
  }

  /** Lines that are too deep end in push_if, whether kept or skipped. */
  lemma {:induction false} DieAll(e: Conditions, base: int, gs: seq<Group>, m: State)
    requires Open(m, base) && m.nest + Depth(gs) > IFDEPTH
    ensures Died(m, Run(e, base, m, Lines(gs)))
    decreases gs, 1
  {
    RunAppend(e, base, m, LinesOf(gs[0]), Lines(gs[1..]));
    var z := Run(e, base, m, LinesOf(gs[0]));
    if m.nest + DepthOf(gs[0]) > IFDEPTH {
      DieOne(e, base, gs[0], m);
      DeadStays(e, base, z, Lines(gs[1..]));
    } else {
      JustOne(gs[0]);
      PassAll(e, base, [gs[0]], m);
      DieAll(e, base, gs[1..], z);
    }
  }

  lemma JustOne(g: Group)
    ensures Lines([g]) == LinesOf(g) && Depth([g]) == DepthOf(g)
  {
    assert [g][1..] == [];
  }

  lemma {:induction false} DieOne(e: Conditions, base: int, g: Group, m: State)
    requires Open(m, base) && m.nest + DepthOf(g) > IFDEPTH
    ensures Died(m, Run(e, base, m, LinesOf(g)))
    decreases g, 0
  {
    var Cond(c, body, rest) := g;
    RunOne(e, base, m, IfLine(c), Lines(body) + ChainLines(rest));
    var p := Step(e, base, m, IfLine(c));
    if p.mode.Dead? {
      DeadStays(e, base, p, Lines(body) + ChainLines(rest));
    } else {
      RunAppend(e, base, p, Lines(body), ChainLines(rest));
      var q := Run(e, base, p, Lines(body));
      if p.nest + Depth(body) > IFDEPTH {
        DieAll(e, base, body, p);
        DeadStays(e, base, q, ChainLines(rest));
      } else {
        PassAll(e, base, body, p);
        DieChain(e, base, rest, q);
      }
    }
  }

  lemma {:induction false} DieChain(e: Conditions, base: int, ch: Chain, m: State)
    requires Open(m, base) && (m.mode.Normal? ==> m.nest > base) && !Mark(m, m.nest)
    requires m.nest + ChainDepth(ch) > IFDEPTH
    decreases ch, 0
    ensures Died(m, Run(e, base, m, ChainLines(ch)))
  {
    match ch
    case Elif(c, body, rest) =>
      RunOne(e, base, m, ElifLine(c), Lines(body) + ChainLines(rest));
      var p := Step(e, base, m, ElifLine(c));
      RunAppend(e, base, p, Lines(body), ChainLines(rest));
      var q := Run(e, base, p, Lines(body));
      if p.nest + Depth(body) > IFDEPTH {
        DieAll(e, base, body, p);
        DeadStays(e, base, q, ChainLines(rest));
      } else {
        PassAll(e, base, body, p);
        DieChain(e, base, rest, q);
      }
    case Else(body) =>
      RunOne(e, base, m, ElseLine, Lines(body) + [EndifLine]);
      var p := Step(e, base, m, ElseLine);
      RunAppend(e, base, p, Lines(body), [EndifLine]);
      DieAll(e, base, body, p);
      DeadStays(e, base, Run(e, base, p, Lines(body)), [EndifLine]);
  }

  // ---------- whole files ----------

  const START := State(-1, map[], -1, Normal, Kept([], []), 0)

  /** A file of properly nested conditionals. Up to one level more than the mark array has entries it is read
      as it means; beyond that push_if is fatal; and the array suffices exactly up to IFDEPTH levels. */
  lemma FileKept(e: Conditions, gs: seq<Group>)
    ensures var d, z := Depth(gs), Run(e, -1, START, Lines(gs));
      && (z.mode.Dead? <==> d > IFDEPTH + 1)
      && (d <= IFDEPTH + 1 ==> z.mode.Normal? && z.nest == -1 && z.kept == KeepAll(e, gs, Kept([], [])))
      && (z.top < IFDEPTH <==> d <= IFDEPTH) && z.errors == 0
  {
    if Depth(gs) <= IFDEPTH + 1 {
      NormalAll(e, -1, gs, START);
    } else {
      DieAll(e, -1, gs, START);
    }
  }

  /** Conditionals nested n deep. */
  function Nested(n: nat): seq<Group>
  {
    if n == 0 then [] else [Cond(0, Nested(n - 1), End)]
  }

  lemma {:induction false} NestedDepth(n: nat)
    ensures Depth(Nested(n)) == n
  {
    if n > 0 {
      NestedDepth(n - 1);
      assert Nested(n)[1..] == [];
    }
  }

  /** The test in push_if admits one level too many: 257 nested conditionals are accepted, and the mark of
      the innermost one is written behind the array. */
  lemma OneTooDeep(e: Conditions)
    ensures var z := Run(e, -1, START, Lines(Nested(IFDEPTH + 1)));
      z.mode.Normal? && z.errors == 0 && z.top == IFDEPTH
  {
    NestedDepth(IFDEPTH + 1);
    NormalAll(e, -1, Nested(IFDEPTH + 1), START);
  }

  lemma RunNext(e: Conditions, base: int, m: State, ls: seq<Line>, i: nat)
    requires i < |ls|
    ensures Run(e, base, m, ls[..i + 1]) == Step(e, base, Run(e, base, m, ls[..i]), ls[i])
  {
    assert ls[..i + 1] == ls[..i] + [ls[i]];
    RunAppend(e, base, m, ls[..i], [ls[i]]);
    RunOne(e, base, Run(e, base, m, ls[..i]), ls[i], []);
  }

  // ---------- which lines are reported ----------

  /** The lines that stand wrong, seen as text: an #elif, #else or #endif outside any conditional, and an #elif or
      #else behind the #else of its conditional. els says for each open conditional, outermost first, whether
      it has had its #else. */
  function Wrong(ls: seq<Line>, els: seq<bool>): nat
    decreases |ls|
  {
    if ls == [] then 0 else (if WrongHere(ls[0], els) then 1 else 0) + Wrong(ls[1..], Opened(ls[0], els))
  }

  predicate WrongHere(l: Line, els: seq<bool>)
  {
    match l
    case ElifLine(_) => els == [] || els[|els| - 1]
    case ElseLine => els == [] || els[|els| - 1]
    case EndifLine => els == []
    case _ => false
  }

  /** The open conditionals behind a line. */
  function Opened(l: Line, els: seq<bool>): seq<bool>
  {
    match l
    case IfLine(_) => els + [false]
    case ElseLine => if els == [] then els else els[|els| - 1 := true]
    case EndifLine => if els == [] then els else els[..|els| - 1]
    case _ => els
  }

  /** Some #elif stands behind the #else of its conditional. */
  predicate LateElif(ls: seq<Line>, els: seq<bool>)
    decreases |ls|
  {
    ls != [] && ((ls[0].ElifLine? && els != [] && els[|els| - 1]) || LateElif(ls[1..], Opened(ls[0], els)))
  }

  /** The machine's level and marks are those of the open conditionals. */
  ghost predicate Tracks(base: int, m: State, els: seq<bool>)
  {
    && m.nest == base + |els| && (forall i :: 0 <= i < |els| ==> Mark(m, base + 1 + i) == els[i])
    && !m.mode.Dead? && (m.mode.Skipping? ==> base < m.mode.level <= m.nest)
  }

  lemma OneReport(e: Conditions, base: int, m: State, l: Line, els: seq<bool>)
    requires Tracks(base, m, els) && !Step(e, base, m, l).mode.Dead?
    ensures Step(e, base, m, l).errors == m.errors + if WrongHere(l, els) then 1 else 0
    ensures !(l.ElifLine? && els != [] && els[|els| - 1]) ==> Tracks(base, Step(e, base, m, l), Opened(l, els))
  {
    if els != [] {
      assert Mark(m, m.nest) == els[|els| - 1];
    }
  }

  lemma {:induction false} NeverFewer(e: Conditions, base: int, m: State, ls: seq<Line>)
    ensures Run(e, base, m, ls).errors >= m.errors
    ensures m.mode.Dead? ==> Run(e, base, m, ls).mode.Dead?
    decreases |ls|
  {
    if ls != [] {
      NeverFewer(e, base, Step(e, base, m, ls[0]), ls[1..]);
    }
  }

  /** For any lines that are not nested too deep: an error is reported if and only if some line stands wrong, and one
      for each such line as long as no #elif stands behind an #else. */
  lemma {:induction false} Reported(e: Conditions, base: int, m: State, ls: seq<Line>, els: seq<bool>)
    requires Tracks(base, m, els) && !Run(e, base, m, ls).mode.Dead?
    ensures Run(e, base, m, ls).errors == m.errors <==> Wrong(ls, els) == 0
    ensures !LateElif(ls, els) ==> Run(e, base, m, ls).errors == m.errors + Wrong(ls, els)
    decreases |ls|
  {
    hide Step, Tracks, Opened, WrongHere;
    if ls != [] {
      var p := Step(e, base, m, ls[0]);
      NeverFewer(e, base, p, ls[1..]);
      OneReport(e, base, m, ls[0], els);
      if ls[0].ElifLine? && els != [] && els[|els| - 1] {
        assert WrongHere(ls[0], els) by { LateIsWrong(ls[0], els); }
      } else {
        Reported(e, base, p, ls[1..], Opened(ls[0], els));
      }
    }
  }

  lemma LateIsWrong(l: Line, els: seq<bool>)
    requires l.ElifLine? && els != [] && els[|els| - 1]
    ensures WrongHere(l, els)
  {
  }

  class Preprocessor {
    const conditions: Conditions
    const lines: seq<Line>
    /** svnestlevel of this file. */
    const base: int
    var pos: nat
    var nestlevel: int
    var ifstack: map<int, bool>
    /** The highest index of ifstack written so far. */
    ghost var top: int
    var out: seq<nat>
    var asked: seq<nat>
    var errors: nat
    /** fatal() has been called. */
    var dead: bool

    constructor (e: Conditions, ls: seq<Line>)
      ensures conditions == e && lines == ls && base == -1 && pos == 0 && !dead
      ensures View(Normal) == START
    {
      conditions, lines, base, pos, nestlevel, ifstack, top := e, ls, -1, 0, -1, map[], -1;
      out, asked, errors, dead := [], [], 0, false;
    }

    ghost function View(mode: Mode): State
      reads this
    {
      State(nestlevel, ifstack, top, if dead then Dead else mode, Kept(out, asked), errors)
    }

    /** The state is the one that the lines read so far lead to. */
    ghost predicate At(mode: Mode)
      reads this
    {
      pos <= |lines| && View(mode) == Run(conditions, base, START, lines[..pos])
    }

    method Report(b: bool)
      modifies this`errors
      ensures errors == old(errors) + if b then 1 else 0
    {
      if b {
        errors := errors + 1;
      }
    }

    method PutMark(b: bool)
      modifies this`ifstack, this`top
      ensures ifstack == old(ifstack)[nestlevel := b] && top == Max(old(top), nestlevel)
    {
      ifstack := ifstack[nestlevel := b];
      top := Max(top, nestlevel);
    }

    function Marked(): bool
      reads this
    {
      nestlevel in ifstack && ifstack[nestlevel]
    }

    /** push_if */
    method Push(ghost mode: Mode)
      requires !dead
      modifies this`nestlevel, this`ifstack, this`top, this`dead
      ensures View(mode) == PushIf(old(View(mode)))
      ensures dead <==> old(nestlevel) >= IFDEPTH
    {
      if nestlevel >= IFDEPTH {
        dead := true;
      } else {
        nestlevel := nestlevel + 1;
        PutMark(false);
      }
    }

    /** ifexpr */
    method IfExpr(c: nat) returns (b: bool)
      modifies this`asked
      ensures b == conditions(c, out) && asked == old(asked) + [c]
    {
      asked := asked + [c];
      b := conditions(c, out);
    }

    /** skip_block, from the line behind the one that started the skipping: returns when a line ends the
        skipping, at the end of the file, or after a fatal error. */
    method SkipBlock(toEndif: bool) returns (ghost mode: Mode)
      requires !dead && At(Skipping(toEndif, nestlevel))
      modifies this
      ensures At(mode) && pos >= old(pos) && (dead || mode.Normal? || pos == |lines|)
    {
      hide Run;
      var skiplevel := nestlevel;
      mode := Skipping(toEndif, skiplevel);
      while pos < |lines|
        invariant !dead && At(mode) && mode == Skipping(toEndif, skiplevel) && pos >= old(pos)
        decreases |lines| - pos
      {
        RunNext(conditions, base, START, lines, pos);
        var line := lines[pos];
        pos := pos + 1;
        match line {
          case Text(_) =>
          case IfLine(_) =>
            Push(mode);
            if dead {
              return;
            }
          case ElifLine(c) =>
            Report(Marked());
            if !toEndif && nestlevel == skiplevel {
              nestlevel := nestlevel - 1;
              Push(mode);
              if dead {
                return;
              }
              var b := IfExpr(c);
              if b {
                mode := Normal;
                return;
              }
            }
          case ElseLine =>
            Report(Marked());
            PutMark(true);
            if !toEndif && nestlevel == skiplevel {
              mode := Normal;
              return;
            }
          case EndifLine =>
            var over := nestlevel == skiplevel;
            nestlevel := nestlevel - 1;
            if over {
              mode := Normal;
              return;
            }
        }
      }
    }

    /** The main loop with do_if, do_ifdef, do_elif, do_else and do_endif. */
    method Process() returns (ghost mode: Mode)
      requires pos == 0 && !dead && View(Normal) == START
      modifies this
      ensures pos <= |lines| && View(mode) == Run(conditions, base, START, if dead then lines[..pos] else lines)
      ensures base == -1 && !dead && !mode.Dead? ==> (errors == 0 <==> Wrong(lines, []) == 0)
    {
      hide Run;
      mode := Normal;
      EmptyRun(conditions, base, START);
      assert lines[..0] == [];
      while pos < |lines| && !dead
        invariant At(mode) && (dead || mode.Normal? || pos == |lines|)
        decreases |lines| - pos
      {
        mode := OneLine();
      }
      assert !dead ==> lines[..pos] == lines;
      if base == -1 && !dead && !mode.Dead? {
        Reported(conditions, base, START, lines, []);
      }
    }

    method OneLine() returns (ghost mode: Mode)
      requires !dead && pos < |lines| && At(Normal)
      modifies this
      ensures At(mode) && pos > old(pos) && (dead || mode.Normal? || pos == |lines|)
    {
      hide Run;
      mode := Normal;
      RunNext(conditions, base, START, lines, pos);
      var line := lines[pos];
      pos := pos + 1;
      match line {
        case Text(t) => out := out + [t];
        case IfLine(c) =>
          Push(mode);
          if dead {
            return;
          }
          var b := IfExpr(c);
          if !b {
            mode := SkipBlock(false);
          }
        case ElifLine(_) =>
          if nestlevel <= base {
            Report(true);
          } else {
            Report(Marked());
            nestlevel := nestlevel - 1;
            Push(mode);
            if dead {
              return;
            }
            mode := SkipBlock(true);
          }
        case ElseLine =>
          if nestlevel <= base {
            Report(true);
          } else {
            Report(Marked());
            PutMark(true);
            mode := SkipBlock(true);
          }
        case EndifLine =>
          if nestlevel <= base {
            Report(true);
          } else {
            nestlevel := nestlevel - 1;
          }
      }
    }
  }

  lemma EmptyRun(e: Conditions, base: int, m: State)
    ensures Run(e, base, m, []) == m
  {
  }
}
