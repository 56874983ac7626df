/** What rescanning of object-like macros means. */
module MacroSpec {

  /** Identifiers, the token separator that ends a replacement text, and all other characters. */
  datatype Tok = Id(n: nat) | Sep | Ch(c: nat)

  const SPACE: Tok := Ch(32)

  /** Object-like macros with their bodies. */
  type Macros = map<nat, seq<Tok>>

  /** The text that replaces a macro: its body, closed by a separator. */
  function Text(body: seq<Tok>): (t: seq<Tok>)
    ensures t != [] && t[|t| - 1] == Sep
  {
    if body == [] || body[|body| - 1] != Sep then body + [Sep] else body
  }

  predicate Replaces(m: Macros, active: set<nat>, t: Tok) { t.Id? && t.n in m && t.n !in active }

  lemma FewerLeft(m: Macros, active: set<nat>, n: nat)
    requires n in m && n !in active
    ensures |m.Keys - (active + {n})| < |m.Keys - active|
  {
    assert m.Keys - active == (m.Keys - (active + {n})) + {n};
  }

  /** The output for a text inside the replacements of the active macros: a macro that is not active is
      replaced, and its text is treated the same way with that macro active too. */
  function Expand(m: Macros, ts: seq<Tok>, active: set<nat>): seq<Tok>
    decreases |m.Keys - active|, |ts|
  {
    if ts == [] then []
    else ExpandOne(m, ts[0], active) + Expand(m, ts[1..], active)
  }

  function ExpandOne(m: Macros, t: Tok, active: set<nat>): seq<Tok>
    decreases |m.Keys - active|, 0
  {
    if Replaces(m, active, t) then
      FewerLeft(m, active, t.n);
      [SPACE] + Expand(m, Text(m[t.n]), active + {t.n})
    else [if t.Sep? && active != {} then SPACE else t]
  }

  /** How many tokens and ends of texts are met on the way. */
  function Steps(m: Macros, ts: seq<Tok>, active: set<nat>): (n: nat)
    ensures n >= 1
    decreases |m.Keys - active|, |ts|
  {
    if ts == [] then 1
    else
      var rest := Steps(m, ts[1..], active);
      if Replaces(m, active, ts[0]) then
        FewerLeft(m, active, ts[0].n);
        1 + Steps(m, Text(m[ts[0].n]), active + {ts[0].n}) + rest
      else 1 + rest
  }

  lemma {:induction false} ExpandAppend(m: Macros, a: seq<Tok>, b: seq<Tok>, active: set<nat>)
    ensures Expand(m, a + b, active) == Expand(m, a, active) + Expand(m, b, active)
    decreases |a|
  {
    if a == [] {
      assert a + b == b;
    } else {
      assert (a + b)[1..] == a[1..] + b;
      ExpandAppend(m, a[1..], b, active);
    }
  }

  // ---------- expansion as rewriting ----------

  /** A token with the macros whose texts it stands in: those it must not be replaced by. */
  datatype Marked = Marked(t: Tok, marks: set<nat>)

  function Marking(ts: seq<Tok>, marks: set<nat>): (a: seq<Marked>)
    ensures |a| == |ts| && forall i :: 0 <= i < |a| ==> a[i] == Marked(ts[i], marks)
  {
    seq(|ts|, i requires 0 <= i < |ts| => Marked(ts[i], marks))
  }

  function Plain(a: seq<Marked>): (ts: seq<Tok>)
    ensures |ts| == |a| && forall i :: 0 <= i < |a| ==> ts[i] == a[i].t
  {
    seq(|a|, i requires 0 <= i < |a| => a[i].t)
  }

  /** Separators are blanks in the output. */
  function Blanks(ts: seq<Tok>): (b: seq<Tok>)
    ensures |b| == |ts| && forall i :: 0 <= i < |ts| ==> b[i] == if ts[i].Sep? then SPACE else ts[i]
  {
    seq(|ts|, i requires 0 <= i < |ts| => if ts[i].Sep? then SPACE else ts[i])
  }

  /** What stands in the output for a macro with this body: the body between blanks, one of which a separator at
      its end may already be. */
  function Spread(body: seq<Tok>): seq<Tok>
  {
    [SPACE] + Blanks(body) + if body != [] && body[|body| - 1].Sep? then [] else [SPACE]
  }

  predicate Redex(m: Macros, x: Marked) { x.t.Id? && x.t.n in m && x.t.n !in x.marks }

  /** One macro name, anywhere, gives way to its body, in which it is marked from now on. */
  ghost predicate Rewritten(m: Macros, a: seq<Marked>, b: seq<Marked>, i: nat)
  {
    && i < |a| && Redex(m, a[i])
    && b == a[..i] + Marking(Spread(m[a[i].t.n]), a[i].marks + {a[i].t.n}) + a[i + 1..]
  }

  /** k such steps, in any order. */
  ghost predicate Rewrites(m: Macros, a: seq<Marked>, b: seq<Marked>, k: nat)
    decreases k
  {
    if k == 0 then a == b else exists c, i :: Rewritten(m, a, c, i) && Rewrites(m, c, b, k - 1)
  }

  predicate Normal(m: Macros, a: seq<Marked>) { forall i :: 0 <= i < |a| ==> !Redex(m, a[i]) }

  /** What a marked text expands to. */
  function Value(m: Macros, a: seq<Marked>): seq<Tok>
  {
    if a == [] then [] else ExpandOne(m, a[0].t, a[0].marks) + Value(m, a[1..])
  }

  lemma {:induction false} ValueAppend(m: Macros, a: seq<Marked>, b: seq<Marked>)
    ensures Value(m, a + b) == Value(m, a) + Value(m, b)
    decreases |a|
  {
    hide ExpandOne;
    if a == [] {
      assert a + b == b;
    } else {
      assert (a + b)[1..] == a[1..] + b;
      ValueAppend(m, a[1..], b);
    }
  }

  lemma {:induction false} ValueMarking(m: Macros, ts: seq<Tok>, marks: set<nat>)
    ensures Value(m, Marking(ts, marks)) == Expand(m, ts, marks)
    decreases |ts|
  {
    hide ExpandOne;
    if ts != [] {
      ValueMarking(m, ts[1..], marks);
      assert Marking(ts, marks)[1..] == Marking(ts[1..], marks);
    }
  }

  lemma {:induction false} BlanksExpand(m: Macros, ts: seq<Tok>, active: set<nat>)
    requires active != {}
    ensures Expand(m, Blanks(ts), active) == Expand(m, ts, active)
    decreases |ts|
  {
    if ts != [] {
      BlanksExpand(m, ts[1..], active);
      assert Blanks(ts)[1..] == Blanks(ts[1..]);
      assert ExpandOne(m, Blanks(ts)[0], active) == ExpandOne(m, ts[0], active);
      hide ExpandOne;
    }
  }

  lemma SpreadExpands(m: Macros, n: nat, marks: set<nat>)
    requires n in m && n !in marks
    ensures Expand(m, Spread(m[n]), marks + {n}) == ExpandOne(m, Id(n), marks)
  {
    var text, active := Text(m[n]), marks + {n};
    assert Spread(m[n]) == [SPACE] + Blanks(text);
    ExpandAppend(m, [SPACE], Blanks(text), active);
    BlanksExpand(m, text, active);
    assert Expand(m, [SPACE], active) == [SPACE] by {
      assert [SPACE][1..] == [];
    }
  }

  /** A step changes nothing of what the text expands to. */
  lemma StepKeeps(m: Macros, a: seq<Marked>, b: seq<Marked>, i: nat)
    requires Rewritten(m, a, b, i)
    ensures Value(m, b) == Value(m, a)
  {
    var n, marks := a[i].t.n, a[i].marks;
    var mid := Marking(Spread(m[n]), marks + {n});
    assert a == a[..i] + ([a[i]] + a[i + 1..]) && b == a[..i] + (mid + a[i + 1..]);
    ValueAppend(m, a[..i], [a[i]] + a[i + 1..]);
    ValueAppend(m, [a[i]], a[i + 1..]);
    ValueAppend(m, a[..i], mid + a[i + 1..]);
    ValueAppend(m, mid, a[i + 1..]);
    ValueMarking(m, Spread(m[n]), marks + {n});
    SpreadExpands(m, n, marks);
    assert Value(m, [a[i]]) == ExpandOne(m, Id(n), marks) by {
      assert [a[i]][1..] == [];
      hide ExpandOne;
    }
  }

  /** Separators stand in the source text only. */
  predicate Separated(a: seq<Marked>) { forall i :: 0 <= i < |a| && a[i].t.Sep? ==> a[i].marks == {} }

  lemma {:induction false} NormalValue(m: Macros, a: seq<Marked>)
    requires Normal(m, a) && Separated(a)
    ensures Value(m, a) == Plain(a)
    decreases |a|
  {
    if a != [] {
      assert !Redex(m, a[0]);
      assert ExpandOne(m, a[0].t, a[0].marks) == [a[0].t];
      forall i | 0 <= i < |a[1..]| ensures !Redex(m, a[1..][i]) {
        assert a[1..][i] == a[i + 1];
      }
      NormalValue(m, a[1..]);
      hide ExpandOne;
      assert Plain(a) == [a[0].t] + Plain(a[1..]);
    }
  }

  lemma StepSeparated(m: Macros, a: seq<Marked>, b: seq<Marked>, i: nat)
    requires Rewritten(m, a, b, i) && Separated(a)
    ensures Separated(b)
  {
    var mid := Spread(m[a[i].t.n]);
    forall j | 0 <= j < |b| ensures b[j].t.Sep? ==> b[j].marks == {} {
      if j < i {
        assert b[j] == a[j];
      } else if j < i + |mid| {
        assert b[j].t == mid[j - i];
      } else {
        assert b[j] == a[j - |mid| + 1];
      }
    }
  }

  /** Whatever order the names are replaced in: when none is left to replace, the text is the expansion. */
  lemma {:induction false} NormalForm(m: Macros, a: seq<Marked>, z: seq<Marked>, k: nat)
    requires Rewrites(m, a, z, k) && Normal(m, z) && Separated(a)
    ensures Plain(z) == Value(m, a)
    decreases k
  {
    hide Value, Rewritten;
    if k == 0 {
      NormalValue(m, z);
    } else {
      var c, i :| Rewritten(m, a, c, i) && Rewrites(m, c, z, k - 1);
      StepKeeps(m, a, c, i);
      StepSeparated(m, a, c, i);
      NormalForm(m, c, z, k - 1);
    }
  }

  // ---------- a normal form is reached ----------

  lemma Before(m: Macros, a: seq<Marked>, c: seq<Marked>, i: nat, b: seq<Marked>, k: nat)
    requires Rewritten(m, a, c, i) && Rewrites(m, c, b, k)
    ensures Rewrites(m, a, b, k + 1)
  {
    hide Rewritten;
  }

  lemma First(m: Macros, a: seq<Marked>, b: seq<Marked>, k: nat) returns (c: seq<Marked>, i: nat)
    requires Rewrites(m, a, b, k) && k > 0
    ensures Rewritten(m, a, c, i) && Rewrites(m, c, b, k - 1)
  {
    hide Rewritten;
    c, i :| Rewritten(m, a, c, i) && Rewrites(m, c, b, k - 1);
  }

  lemma Nothing(m: Macros, a: seq<Marked>, b: seq<Marked>)
    ensures Rewrites(m, a, b, 0) <==> a == b
  {
  }

  lemma {:induction false} RewritesWithin(m: Macros, p: seq<Marked>, a: seq<Marked>, b: seq<Marked>, q: seq<Marked>, k: nat)
    requires Rewrites(m, a, b, k)
    ensures Rewrites(m, p + a + q, p + b + q, k)
    decreases k
  {
    hide Rewrites, Rewritten;
    if k == 0 {
      Nothing(m, a, b);
      Nothing(m, p + a + q, p + b + q);
    } else {
      var c, i := First(m, a, b, k);
      RewritesWithin(m, p, c, b, q, k - 1);
      WithinStep(m, p, a, c, q, i);
      Before(m, p + a + q, p + c + q, |p| + i, p + b + q, k - 1);
    }
  }

  lemma WithinStep(m: Macros, p: seq<Marked>, a: seq<Marked>, c: seq<Marked>, q: seq<Marked>, i: nat)
    requires Rewritten(m, a, c, i)
    ensures Rewritten(m, p + a + q, p + c + q, |p| + i)
  {
    var w := p + a + q;
    assert w[|p| + i] == a[i] && w[..|p| + i] == p + a[..i] && w[|p| + i + 1..] == a[i + 1..] + q;
  }

  lemma {:induction false} RewritesOn(m: Macros, a: seq<Marked>, b: seq<Marked>, c: seq<Marked>, j: nat, k: nat)
    requires Rewrites(m, a, b, j) && Rewrites(m, b, c, k)
    ensures Rewrites(m, a, c, j + k)
    decreases j
  {
    hide Rewrites, Rewritten;
    if j == 0 {
      Nothing(m, a, b);
    } else {
      var d, i := First(m, a, b, j);
      RewritesOn(m, d, b, c, j - 1, k);
      Before(m, a, d, i, c, j - 1 + k);
    }
  }

  lemma {:induction false} Reaches(m: Macros, ts: seq<Tok>, active: set<nat>) returns (z: seq<Marked>, k: nat)
    ensures Rewrites(m, Marking(ts, active), z, k) && Normal(m, z)
    decreases |m.Keys - active|, |ts|
  {
    hide Rewrites, Spread, Normal, Rewritten;
    if ts == [] {
      z, k := [], 0;
      Nothing(m, Marking(ts, active), z);
      NothingLeft(m);
    } else {
      var r, j := Reaches(m, ts[1..], active);
      if Replaces(m, active, ts[0]) {
        var n := ts[0].n;
        FewerLeft(m, active, n);
        var y, i := Reaches(m, Spread(m[n]), active + {n});
        ReachesHead(m, ts, active, r, j, y, i);
        z, k := y + r, j + (1 + i);
      } else {
        ReachesTail(m, ts, active, r, j);
        z, k := [Marked(ts[0], active)] + r, j;
      }
    }
  }

  lemma NothingLeft(m: Macros)
    ensures Normal(m, [])
  {
  }

  lemma NormalAlone(m: Macros, x: Marked)
    ensures Normal(m, [x]) <==> !Redex(m, x)
  {
    assert [x][0] == x;
  }

  lemma NormalBoth(m: Macros, a: seq<Marked>, b: seq<Marked>)
    ensures Normal(m, a + b) <==> Normal(m, a) && Normal(m, b)
  {
    hide Redex;
    forall i | 0 <= i < |b| ensures b[i] == (a + b)[|a| + i] {
    }
    forall i | 0 <= i < |a| ensures a[i] == (a + b)[i] {
    }
  }

  /** The head of a text stays, the rest reaches a normal form. */
  lemma ReachesTail(m: Macros, ts: seq<Tok>, active: set<nat>, r: seq<Marked>, j: nat)
    requires ts != [] && Rewrites(m, Marking(ts[1..], active), r, j)
    ensures Rewrites(m, Marking(ts, active), [Marked(ts[0], active)] + r, j)
    ensures Normal(m, r) && !Replaces(m, active, ts[0]) ==> Normal(m, [Marked(ts[0], active)] + r)
  {
    hide Rewrites, Normal;
    var x, rest := Marked(ts[0], active), Marking(ts[1..], active);
    RewritesWithin(m, [x], rest, r, [], j);
    assert Marking(ts, active) == [x] + rest + [] && [x] + r + [] == [x] + r;
    NormalBoth(m, [x], r);
    NormalAlone(m, x);
  }

  /** The head of a text is a macro name, whose text reaches a normal form too. */
  lemma ReachesHead(m: Macros, ts: seq<Tok>, active: set<nat>, r: seq<Marked>, j: nat, y: seq<Marked>, i: nat)
    requires ts != [] && Replaces(m, active, ts[0])
    requires Rewrites(m, Marking(ts[1..], active), r, j) && Rewrites(m, Marking(Spread(m[ts[0].n]), active + {ts[0].n}), y, i)
    requires Normal(m, r) && Normal(m, y)
    ensures Rewrites(m, Marking(ts, active), y + r, j + (1 + i)) && Normal(m, y + r)
  {
    hide Rewrites, Spread, Marking, Rewritten, Normal;
    var x, mid := Marked(ts[0], active), Marking(Spread(m[ts[0].n]), active + {ts[0].n});
    ReachesTail(m, ts, active, r, j);
    NormalBoth(m, y, r);
    assert ([x] + r)[1..] == r;
    OneStep(m, [x] + r, mid + r);
    RewritesWithin(m, [], mid, y, r, i);
    assert [] + mid + r == mid + r && [] + y + r == y + r;
    RewritesOn(m, [x] + r, mid + r, y + r, 1, i);
    RewritesOn(m, Marking(ts, active), [x] + r, y + r, j, 1 + i);
  }

  lemma OneStep(m: Macros, a: seq<Marked>, b: seq<Marked>)
    requires a != [] && Redex(m, a[0]) && b == Marking(Spread(m[a[0].t.n]), a[0].marks + {a[0].t.n}) + a[1..]
    ensures Rewrites(m, a, b, 1)
  {
    Nothing(m, b, b);
    assert Rewritten(m, a, b, 0) by {
      assert a[..0] == [] && [] + Marking(Spread(m[a[0].t.n]), a[0].marks + {a[0].t.n}) + a[1..] == b;
    }
    hide Rewrites, Rewritten;
    Before(m, a, b, 0, b, 0);
  }

  /** out is what is left of a source text when its macro names have been replaced, one after the other, until
      none is left. */
  ghost predicate Final(m: Macros, source: seq<Tok>, out: seq<Tok>)
  {
    && (exists z, k :: Rewrites(m, Marking(source, {}), z, k) && Normal(m, z))
    && (forall z, k :: Rewrites(m, Marking(source, {}), z, k) && Normal(m, z) ==> Plain(z) == out)
  }

  /** Expansion is the one normal form of rewriting. */
  lemma ExpandIsFinal(m: Macros, source: seq<Tok>)
    ensures Final(m, source, Expand(m, source, {}))
  {
    var a := Marking(source, {});
    var y, j := Reaches(m, source, {});
    hide Rewrites, Expand, Normal;
    ValueMarking(m, source, {});
    forall z, k | Rewrites(m, a, z, k) && Normal(m, z) ensures Plain(z) == Expand(m, source, {}) {
      NormalForm(m, a, z, k);
    }
  }

  /** A text in which nothing is to be replaced comes out as it is, but for separators inside replacements. */
  lemma {:induction false} NothingToReplace(m: Macros, ts: seq<Tok>, active: set<nat>)
    requires forall i :: 0 <= i < |ts| ==> !Replaces(m, active, ts[i])
    ensures Expand(m, ts, active) == if active == {} then ts else Blanks(ts)
    decreases |ts|
  {
    if ts != [] {
      NothingToReplace(m, ts[1..], active);
      assert ts == [ts[0]] + ts[1..] && Blanks(ts) == Blanks([ts[0]]) + Blanks(ts[1..]);
      assert ExpandOne(m, ts[0], active) == if active == {} then [ts[0]] else Blanks([ts[0]]);
      hide ExpandOne;
    }
  }

  /** A macro whose body has no names of other macros comes out as a blank, its body and a blank; its own name
      in the body stays. */
  lemma OneMacro(m: Macros, n: nat)
    requires n in m && forall i :: 0 <= i < |m[n]| && m[n][i].Id? ==> m[n][i].n !in m || m[n][i].n == n
    ensures Expand(m, [Id(n)], {}) == Spread(m[n])
  {
    NothingToReplace(m, Spread(m[n]), {} + {n});
    SpreadExpands(m, n, {});
    assert Blanks(Spread(m[n])) == Spread(m[n]);
    assert [Id(n)][1..] == [];
    hide ExpandOne;
    assert Expand(m, [Id(n)], {}) == ExpandOne(m, Id(n), {}) + Expand(m, [], {});
  }
}

/** Rescanning as the preprocessor does it: a stack of inputs, a list of active replacements, and a mark on
    every macro that must not be replaced. */
module MacroRescan {
  import opened Wrappers
  import opened MacroSpec

  /** An active replacement: the macro and the input level of its text. */
  datatype Repl = Repl(idf: nat, level: int)

  /** The list with one replacement for each level from |names| down to 1. */
  function Levels(names: seq<nat>): (l: seq<Repl>)
    ensures |l| == |names|
    ensures forall i :: 0 <= i < |l| ==> l[i] == Repl(names[|names| - 1 - i], |names| - i)
  {
    if names == [] then [] else [Repl(names[|names| - 1], |names|)] + Levels(names[..|names| - 1])
  }

  function Idfs(l: seq<Repl>): set<nat> { set i | 0 <= i < |l| :: l[i].idf }

  function Names(names: seq<nat>): set<nat> { set i | 0 <= i < |names| :: names[i] }

  /** The output still to come from a stack of inputs, innermost first. */
  function Left(m: Macros, stack: seq<seq<Tok>>, names: seq<nat>): seq<Tok>
    requires |stack| == |names| + 1
  {
    Expand(m, stack[0], Names(names)) + if names == [] then [] else Left(m, stack[1..], names[..|names| - 1])
  }

  /** The tokens and ends of texts still to be met. */
  function Work(m: Macros, stack: seq<seq<Tok>>, names: seq<nat>): (n: nat)
    requires |stack| == |names| + 1
    ensures n >= 1
  {
    Steps(m, stack[0], Names(names)) + if names == [] then 0 else Work(m, stack[1..], names[..|names| - 1])
  }

  /** A token less on the innermost input. */
  lemma TakeOne(m: Macros, stack: seq<seq<Tok>>, names: seq<nat>)
    requires |stack| == |names| + 1 && stack[0] != []
    ensures var z := [stack[0][1..]] + stack[1..];
      var t := stack[0][0];
      && Left(m, stack, names) == ExpandOne(m, t, Names(names)) + Left(m, z, names)
      && (!Replaces(m, Names(names), t) ==> Work(m, z, names) < Work(m, stack, names))
      && (Replaces(m, Names(names), t) ==>
            Work(m, z, names) + Steps(m, Text(m[t.n]), Names(names) + {t.n}) < Work(m, stack, names))
  {
    hide *;
    var z, a := [stack[0][1..]] + stack[1..], Names(names);
    assert z[1..] == stack[1..] && z[0] == stack[0][1..];
    ExpandHead(m, stack[0], a);
    Innermost(m, stack, names);
    Innermost(m, z, names);
    Join(ExpandOne(m, stack[0][0], a), Expand(m, z[0], a), Below(m, stack[1..], names));
  }

  /** What is to come from the inputs below the innermost one, and the work there. */
  function Below(m: Macros, under: seq<seq<Tok>>, names: seq<nat>): seq<Tok>
    requires |under| == |names|
  {
    if names == [] then [] else Left(m, under, names[..|names| - 1])
  }

  function WorkBelow(m: Macros, under: seq<seq<Tok>>, names: seq<nat>): nat
    requires |under| == |names|
  {
    if names == [] then 0 else Work(m, under, names[..|names| - 1])
  }

  lemma Innermost(m: Macros, stack: seq<seq<Tok>>, names: seq<nat>)
    requires |stack| == |names| + 1
    ensures Left(m, stack, names) == Expand(m, stack[0], Names(names)) + Below(m, stack[1..], names)
    ensures Work(m, stack, names) == Steps(m, stack[0], Names(names)) + WorkBelow(m, stack[1..], names)
  {
    hide Expand, Steps, Names;
  }

  lemma ExpandHead(m: Macros, ts: seq<Tok>, active: set<nat>)
    requires ts != []
    ensures Expand(m, ts, active) == ExpandOne(m, ts[0], active) + Expand(m, ts[1..], active)
    ensures Steps(m, ts, active) == 1 + Steps(m, ts[1..], active)
         + if Replaces(m, active, ts[0]) then Steps(m, Text(m[ts[0].n]), active + {ts[0].n}) else 0
  {
  }

  /** An input that is used up. */
  lemma TakeEnd(m: Macros, stack: seq<seq<Tok>>, names: seq<nat>)
    requires |stack| == |names| + 1 && stack[0] == []
    ensures names != [] ==> Left(m, stack, names) == Left(m, stack[1..], names[..|names| - 1])
    ensures names != [] ==> Work(m, stack[1..], names[..|names| - 1]) < Work(m, stack, names)
    ensures names == [] ==> Left(m, stack, names) == []
  {
  }

  /** A replacement text on top. */
  lemma PutText(m: Macros, stack: seq<seq<Tok>>, names: seq<nat>, n: nat)
    requires |stack| == |names| + 1 && n in m && n !in Names(names)
    ensures var text := Text(m[n]);
      && [SPACE] + Left(m, [text] + stack, names + [n]) == ExpandOne(m, Id(n), Names(names)) + Left(m, stack, names)
      && Work(m, [text] + stack, names + [n]) == Steps(m, text, Names(names) + {n}) + Work(m, stack, names)
  {
    var text, active := Text(m[n]), Names(names);
    NamesAdd(names, n);
    OneMoreText(m, text, stack, names, n);
    assert ExpandOne(m, Id(n), active) == [SPACE] + Expand(m, text, active + {n});
    hide *;
    Join([SPACE], Expand(m, text, active + {n}), Left(m, stack, names));
  }

  lemma OneMoreText(m: Macros, text: seq<Tok>, stack: seq<seq<Tok>>, names: seq<nat>, n: nat)
    requires |stack| == |names| + 1
    ensures Left(m, [text] + stack, names + [n]) == Expand(m, text, Names(names + [n])) + Left(m, stack, names)
    ensures Work(m, [text] + stack, names + [n]) == Steps(m, text, Names(names + [n])) + Work(m, stack, names)
  {
    hide Expand, Steps, Names;
    assert (names + [n])[..|names + [n]| - 1] == names;
    assert ([text] + stack)[1..] == stack && ([text] + stack)[0] == text;
  }

  lemma Join(a: seq<Tok>, b: seq<Tok>, c: seq<Tok>)
    ensures a + (b + c) == (a + b) + c
  {
  }

  lemma NamesAdd(names: seq<nat>, n: nat)
    ensures Names(names + [n]) == Names(names) + {n}
  {
    var z := names + [n];
    forall x | x in Names(names) + {n} ensures x in Names(z) {
      if x == n {
        assert z[|names|] == x;
      } else {
        var i :| 0 <= i < |names| && names[i] == x;
        assert z[i] == x;
      }
    }
  }

  predicate Distinct(l: seq<Repl>) { forall i, j :: 0 <= i < j < |l| ==> l[i].idf != l[j].idf }

  class Scanner {
    const macros: Macros
    /** The macros marked NOREPLACE. */
    var noReplace: set<nat>
    /** ReplaceList, newest first. */
    var list: seq<Repl>
    /** The inputs, innermost first; the last one is the source file. */
    var stack: seq<seq<Tok>>
    var inputLevel: int
    var unstacked: nat
    var out: seq<Tok>
    /** The macros whose texts are on the stack, outermost first. */
    ghost var names: seq<nat>

    constructor (m: Macros, source: seq<Tok>)
      ensures macros == m && Valid() && stack == [source] && out == []
    {
      macros := m;
      noReplace, list, stack, inputLevel, unstacked, out, names := {}, [], [source], 0, 0, [], [];
    }

    /** At any time: the replacements on the list are those of the levels from the current one down to 1,
        behind some of levels that have ended meanwhile; the marks are exactly those of the list. */
    ghost predicate Valid()
      reads this`noReplace, this`list, this`stack, this`inputLevel, this`unstacked, this`names
    {
      && |stack| == |names| + 1 && inputLevel == |names| && |names| <= |list|
      && list[|list| - |names|..] == Levels(names)
      && (forall i :: 0 <= i < |list| - |names| ==> list[i].level > inputLevel)
      && noReplace == Idfs(list) && Distinct(list)
      && (unstacked == 0 ==> |list| == |names|)
      && (forall i :: 0 <= i < |names| ==> names[i] in macros)
    }

    /** The next token; at the end of a replacement text the input below it comes back. */
    method GetTok() returns (t: Option<Tok>)
      requires Valid()
      modifies this`stack, this`inputLevel, this`unstacked, this`names
      ensures Valid()
      ensures t.None? ==> names == [] && old(Left(macros, stack, names)) == []
      ensures t.Some? ==>
        && old(Left(macros, stack, names)) == ExpandOne(macros, t.value, Names(names)) + Left(macros, stack, names)
        && (!Replaces(macros, Names(names), t.value) ==> Work(macros, stack, names) < old(Work(macros, stack, names)))
        && (Replaces(macros, Names(names), t.value) ==>
              Work(macros, stack, names) + Steps(macros, Text(macros[t.value.n]), Names(names) + {t.value.n})
              < old(Work(macros, stack, names)))
    {
      hide Left, Work, ExpandOne, Text, Names, Steps, Levels, Idfs, Distinct;
      while stack[0] == []
        invariant Valid()
        invariant Left(macros, stack, names) == old(Left(macros, stack, names))
        invariant Work(macros, stack, names) <= old(Work(macros, stack, names))
        decreases |stack|
      {
        TakeEnd(macros, stack, names);
        if |stack| == 1 {
          return None;
        }
        EndOfText();
      }
      TakeOne(macros, stack, names);
      t := Some(stack[0][0]);
      stack := [stack[0][1..]] + stack[1..];
    }

    /** AtEoIT */
    method EndOfText()
      requires Valid() && |stack| > 1
      modifies this`stack, this`inputLevel, this`unstacked, this`names
      ensures Valid() && stack == old(stack)[1..] && names == old(names)[..|old(names)| - 1]
    {
      stack := stack[1..];
      inputLevel := inputLevel - 1;
      unstacked := unstacked + 1;
      names := names[..|names| - 1];
    }

    /** EnableMacros: replacements of levels that have ended leave the list and their macros lose the mark. */
    method EnableMacros()
      requires Valid()
      modifies this`list, this`noReplace, this`unstacked
      ensures Valid() && list == Levels(names) && unstacked == 0
    {
      hide Idfs, Levels, Distinct;
      var r, kept := list, [];
      ghost var stale := |list| - |names|;
      DropStale(names, list, inputLevel);
      var i := 0;
      assert r[0..] == r;
      while i < |r|
        invariant 0 <= i <= |r| && r == old(list) && unchanged(`stack) && unchanged(`inputLevel) && unchanged(`names)
        invariant kept == if i <= stale then [] else r[stale..i]
        invariant noReplace == if i <= stale then Idfs(r[i..]) else Idfs(r[stale..])
      {
        if r[i].level > inputLevel {
          TailDistinct(r, i);
          IdfsHead(r[i..]);
          noReplace := noReplace - {r[i].idf};
          assert r[i..][1..] == r[i + 1..];
        } else {
          kept := kept + [r[i]];
        }
        i := i + 1;
      }
      assert kept == r[stale..];
      list := kept;
      unstacked := 0;
      assert list[0..] == list;
    }

    /** replace: a macro without the mark is replaced and marked. */
    method Replace(n: nat) returns (done: bool)
      requires Valid() && unstacked == 0
      modifies this`noReplace, this`list, this`stack, this`inputLevel, this`names
      ensures Valid() && done == Replaces(macros, Names(old(names)), Id(n))
      ensures if done then stack == [Text(macros[n])] + old(stack) && names == old(names) + [n]
              else unchanged(`stack) && unchanged(`names)
    {
      hide Idfs, Levels, Distinct, Names, Text;
      MarksAreNames(names, list);
      LevelsLength(names, list);
      if n !in macros || n in noReplace {
        return false;
      }
      PushText(n);
      done := true;
    }

    /** The text of a macro on top of the inputs, with its replacement on the list and its mark. */
    method PushText(n: nat)
      requires Valid() && list == Levels(names) && unstacked == 0 && n in macros && n !in noReplace
      modifies this`noReplace, this`list, this`stack, this`inputLevel, this`names
      ensures Valid() && stack == [Text(macros[n])] + old(stack) && names == old(names) + [n]
    {
      hide Idfs, Levels, Distinct, Text;
      PushRepl(names, list, n);
      inputLevel := inputLevel + 1;
      stack := [Text(macros[n])] + stack;
      noReplace := noReplace + {n};
      list := [Repl(n, inputLevel)] + list;
      names := names + [n];
      assert list[0..] == list;
    }

    /** The nesting of replacements never exceeds the number of macros. */
    lemma NestingBounded()
      requires Valid() && list == Levels(names)
      ensures inputLevel <= |macros|
    {
      MarksAreNames(names, list);
      NoDuplicates(names, list);
      assert Names(names) <= macros.Keys;
      Subset(Names(names), macros.Keys);
    }

    /** What is done with one token: every identifier first drops the replacements that have ended, then is
        replaced or put out. */
    method HandleTok(t: Tok)
      requires Valid()
      modifies this`noReplace, this`list, this`stack, this`inputLevel, this`names, this`unstacked, this`out
      ensures Valid()
      ensures out + Left(macros, stack, names)
           == old(out) + ExpandOne(macros, t, Names(old(names))) + old(Left(macros, stack, names))
      ensures Work(macros, stack, names)
           == old(Work(macros, stack, names))
            + if Replaces(macros, Names(old(names)), t) then Steps(macros, Text(macros[t.n]), Names(old(names)) + {t.n}) else 0
    {
      hide Valid, Names, Text, Left, Work, Steps, Levels;
      var replaced := false;
      ghost var under, active := stack, names;
      SameLevel();
      if t.Id? {
        if unstacked > 0 {
          EnableMacros();
        }
        replaced := Replace(t.n);
      }
      if replaced {
        ghost var o := out;
        out := out + [SPACE];
        PutText(macros, under, active, t.n);
        assert t == Id(t.n);
        assert out + Left(macros, stack, names) == o + ([SPACE] + Left(macros, stack, names));
        assert o + (ExpandOne(macros, t, Names(active)) + Left(macros, under, active))
            == o + ExpandOne(macros, t, Names(active)) + Left(macros, under, active);
      } else {
        out := out + [if t.Sep? && inputLevel > 0 then SPACE else t];
      }
    }

    lemma SameLevel()
      requires Valid()
      ensures |stack| == |names| + 1 && (inputLevel > 0 <==> Names(names) != {})
    {
      if names != [] {
        assert names[0] in Names(names);
      }
    }

    method OneToken() returns (going: bool)
      requires Valid()
      modifies this
      ensures Valid()
      ensures out + (if going then Left(macros, stack, names) else []) == old(out) + old(Left(macros, stack, names))
      ensures going ==> Work(macros, stack, names) < old(Work(macros, stack, names))
      ensures !going ==> names == []
    {
      hide Names, Text, Left, Work, Steps, Levels, ExpandOne;
      var t := GetTok();
      going := t.Some?;
      if going {
        HandleTok(t.value);
      }
    }

    /** The main loop of the preprocessor over a source text. It terminates: each step leaves less to be
        met. */
    method Preprocess()
      requires Valid() && |stack| == 1 && out == []
      modifies this
      ensures out == Expand(macros, old(stack[0]), {}) && Final(macros, old(stack[0]), out)
      ensures Valid() && names == []
    {
      hide Final;
      ExpandIsFinal(macros, stack[0]);
      ghost var source := stack[0];
      assert Names(names) == {};
      assert Left(macros, stack, names) == Expand(macros, source, {}) + [];
      hide Valid, Left, Work, Expand;
      var going := true;
      while going
        invariant Valid()
        invariant out + (if going then Left(macros, stack, names) else []) == Expand(macros, source, {})
        invariant !going ==> names == []
        decreases going, Work(macros, stack, names)
      {
        going := OneToken();
      }
    }
  }

  lemma LevelsLength(names: seq<nat>, list: seq<Repl>)
    requires |names| <= |list| && list[|list| - |names|..] == Levels(names)
    ensures |list| == |names| ==> list == Levels(names)
  {
  }

  lemma PushRepl(names: seq<nat>, list: seq<Repl>, n: nat)
    requires list == Levels(names) && n !in Idfs(list) && Distinct(list)
    ensures var l := [Repl(n, |names| + 1)] + list;
      l == Levels(names + [n]) && Idfs(l) == Idfs(list) + {n} && Distinct(l)
  {
    var l := [Repl(n, |names| + 1)] + list;
    assert (names + [n])[..|names|] == names;
    IdfsHead(l);
    assert l[1..] == list;
    forall i, j | 0 <= i < j < |l| ensures l[i].idf != l[j].idf {
      if i == 0 {
        assert list[j - 1].idf in Idfs(list);
      } else {
        assert l[i] == list[i - 1] && l[j] == list[j - 1];
      }
    }
  }

  /** What is left of the list when the replacements of ended levels go. */
  lemma DropStale(names: seq<nat>, list: seq<Repl>, level: int)
    requires |names| <= |list| && list[|list| - |names|..] == Levels(names) && level == |names| && Distinct(list)
    ensures var k := |list| - |names|;
      && (forall j :: k <= j < |list| ==> list[j].level <= level)
      && Distinct(list[k..])
  {
    var k := |list| - |names|;
    forall j | k <= j < |list| ensures list[j].level <= level {
      assert list[k..][j - k] == Levels(names)[j - k];
    }
    forall i, j | 0 <= i < j < |list[k..]| ensures list[k..][i].idf != list[k..][j].idf {
      assert list[k + i].idf != list[k + j].idf;
    }
  }

  lemma TailDistinct(l: seq<Repl>, i: nat)
    requires i <= |l| && Distinct(l)
    ensures Distinct(l[i..])
  {
    forall p, q | 0 <= p < q < |l[i..]| ensures l[i..][p].idf != l[i..][q].idf {
      assert l[i + p].idf != l[i + q].idf;
    }
  }

  lemma IdfsHead(l: seq<Repl>)
    requires l != []
    ensures Idfs(l) == {l[0].idf} + Idfs(l[1..])
    ensures Distinct(l) ==> l[0].idf !in Idfs(l[1..])
  {
    forall x | x in Idfs(l) ensures x in {l[0].idf} + Idfs(l[1..]) {
      var i :| 0 <= i < |l| && l[i].idf == x;
      if i > 0 {
        assert l[1..][i - 1].idf == x;
      }
    }
  }

  /** At every identifier the marked macros are exactly those whose texts are being read. */
  lemma MarksAreNames(names: seq<nat>, list: seq<Repl>)
    requires list == Levels(names)
    ensures Idfs(list) == Names(names)
  {
    forall x | x in Names(names) ensures x in Idfs(list) {
      var i :| 0 <= i < |names| && names[i] == x;
      assert list[|names| - 1 - i].idf == x;
    }
  }

  lemma {:induction false} Subset(a: set<nat>, b: set<nat>)
    requires a <= b
    ensures |a| <= |b|
  {
    if a != {} {
      var x :| x in a;
      Subset(a - {x}, b - {x});
    }
  }

  lemma {:induction false} NoDuplicates(names: seq<nat>, list: seq<Repl>)
    requires list == Levels(names) && Distinct(list)
    ensures |Names(names)| == |names|
  {
    if names != [] {
      var k := |names| - 1;
      var front := names[..k];
      assert list[1..] == Levels(front);
      assert Distinct(list[1..]) by {
        assert forall i :: 0 <= i < |list[1..]| ==> list[1..][i] == list[i + 1];
      }
      NoDuplicates(front, list[1..]);
      assert front + [names[k]] == names;
      NamesAdd(front, names[k]);
      assert names[k] !in Names(front) by {
        IdfsHead(list);
        MarksAreNames(front, list[1..]);
      }
    }
  }
}
