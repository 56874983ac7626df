/** Switch statements: the list of case labels and the three ways to dispatch on it. */
module Switch {
  import opened Wrappers
  import TA = TargetArith

  const DENSITY: int := 3

  datatype Entry = Entry(value: int, lbl: nat)

  /** The controlling type: its bits and its smallest constant as the front end keeps it. */
  datatype Type = Type(bits: nat, low: int)

  predicate Fits(t: Type, v: int) { t.low <= v < t.low + TA.Pow2(t.bits) }

  /** The greatest value of writh, the host's integer of w bits that constants are kept in. */
  function Max(w: nat): int
    requires 0 < w
  {
    TA.Pow2(w - 1) - 1
  }

  /** What is left of x in a writh. */
  function Writh(x: int, w: nat): int
    requires 0 < w
  {
    TA.Wrap(x, w, false)
  }

  /** Every constant of the type is a writh. */
  predicate Hosted(t: Type, w: nat)
  {
    0 < w && -TA.Pow2(w - 1) <= t.low && t.low + TA.Pow2(t.bits) <= TA.Pow2(w - 1)
  }

  /** Only the step behind the greatest value wraps around. */
  lemma StepUp(x: int, w: nat)
    requires 0 < w && -TA.Pow2(w - 1) <= x <= Max(w)
    ensures Writh(x + 1, w) == if x < Max(w) then x + 1 else -TA.Pow2(w - 1)
  {
    if x < Max(w) {
      TA.WrapSame(x + 1, w, false);
    } else {
      TA.PatSmall(x + 1, w);
    }
  }

  predicate Sorted(es: seq<Entry>)
  {
    forall i, j :: 0 <= i < j < |es| ==> es[i].value < es[j].value
  }

  /** The label of value v, if it has one. */
  function Lookup(es: seq<Entry>, v: int): Option<nat>
  {
    if es == [] then None else if es[0].value == v then Some(es[0].lbl) else Lookup(es[1..], v)
  }

  function Or(o: Option<nat>, d: nat): nat { if o.Some? then o.value else d }

  lemma {:induction false} LookupAt(es: seq<Entry>, i: nat)
    requires i < |es| && Sorted(es)
    ensures Lookup(es, es[i].value) == Some(es[i].lbl)
    decreases i
  {
    if i > 0 {
      assert Sorted(es[1..]);
      assert es[0].value < es[i].value;
      LookupAt(es[1..], i - 1);
    }
  }

  lemma {:induction false} LookupNone(es: seq<Entry>, v: int)
    requires forall i :: 0 <= i < |es| ==> es[i].value != v
    ensures Lookup(es, v) == None
  {
    if es != [] {
      LookupNone(es[1..], v);
    }
  }

  /** compact, on a host with integers of w bits. */
  predicate Compact(nr: nat, low: int, up: int, w: nat)
    requires 0 < w
  {
    var diff := Writh(up - low, w);
    nr == 0 || (diff >= 0 && diff / nr <= DENSITY - 1)
  }

  /** What the end of the statement puts out: nothing to compare, one comparison, a table indexed by the
      value (csa), or a table of values to search (csb). */
  datatype Table =
    | Nothing(dflt: nat)
    | One(value: int, lbl: nat, dflt: nat)
    | Dense(dflt: nat, low: int, range: int, labels: seq<nat>)
    | Sparse(dflt: nat, entries: seq<Entry>)

  /** Where the machine goes for a value of the type: csa subtracts and compares without sign, in the bits
      of the type. */
  function Dispatch(tab: Table, v: int, bits: nat): nat
    requires tab.Dense? ==> |tab.labels| == tab.range + 1
  {
    match tab
    case Nothing(d) => d
    case One(w, l, d) => if TA.Pat(v, bits) == TA.Pat(w, bits) then l else d
    case Dense(d, low, range, labels) =>
      var i := TA.Pat(v - low, bits);
      if i <= range then labels[i] else d
    case Sparse(d, es) => Or(Search(es, v, bits), d)
  }

  /** csb */
  function Search(es: seq<Entry>, v: int, bits: nat): Option<nat>
  {
    if es == [] then None
    else if TA.Pat(es[0].value, bits) == TA.Pat(v, bits) then Some(es[0].lbl) else Search(es[1..], v, bits)
  }

  /** Values of one type are equal when their patterns are. */
  lemma SamePattern(t: Type, v: int, w: int)
    requires Fits(t, v) && Fits(t, w) && TA.Pat(v, t.bits) == TA.Pat(w, t.bits)
    ensures v == w
  {
    var q := TA.PatDiffer(v, w, t.bits);
    TA.Multiple(q, TA.Pow2(t.bits));
  }

  lemma {:induction false} SearchIsLookup(t: Type, es: seq<Entry>, v: int)
    requires Fits(t, v) && forall i :: 0 <= i < |es| ==> Fits(t, es[i].value)
    ensures Search(es, v, t.bits) == Lookup(es, v)
  {
    if es != [] {
      if TA.Pat(es[0].value, t.bits) == TA.Pat(v, t.bits) {
        SamePattern(t, es[0].value, v);
      }
      SearchIsLookup(t, es[1..], v);
    }
  }

  /** The unsigned index of csa is in range exactly for values from low to low + range. */
  lemma IndexInRange(t: Type, v: int, low: int, range: nat)
    requires Fits(t, v) && Fits(t, low) && Fits(t, low + range)
    ensures TA.Pat(v - low, t.bits) <= range <==> low <= v <= low + range
    ensures low <= v ==> TA.Pat(v - low, t.bits) == v - low
  {
    if v >= low {
      TA.PatSmall(v - low, t.bits);
    } else {
      TA.ModUnique(v - low, -1, v - low + TA.Pow2(t.bits), TA.Pow2(t.bits));
    }
  }

  class Header {
    const ty: Type
    /** The bits of writh. */
    const width: nat
    var entries: seq<Entry>
    var lower: int
    var upper: int
    var nr: nat

    constructor (t: Type, w: nat)
      requires Hosted(t, w)
      ensures ty == t && width == w && entries == [] && Valid()
    {
      ty, width, entries, lower, upper, nr := t, w, [], 0, 0, 0;
    }

    /** The list is strictly sorted, the bounds are its ends and the count its length. */
    ghost predicate Valid()
      reads this
    {
      && Hosted(ty, width) && Sorted(entries) && nr == |entries|
      && (forall i :: 0 <= i < |entries| ==> Fits(ty, entries[i].value))
      && (entries != [] ==> lower == entries[0].value && upper == entries[nr - 1].value)
    }

    /** code_case: a value that is there already is an error and changes nothing; any other gets its label. */
    method CodeCase(val: int, lbl: nat) returns (ok: bool)
      requires Valid() && Fits(ty, val)
      modifies this`entries, this`lower, this`upper, this`nr
      ensures Valid()
      ensures ok <==> Lookup(old(entries), val).None?
      ensures !ok ==> entries == old(entries)
      ensures ok ==> forall v :: Lookup(entries, v) == if v == val then Some(lbl) else Lookup(old(entries), v)
    {
      if entries == [] {
        entries, lower, upper, nr := [Entry(val, lbl)], val, val, 1;
        return true;
      }
      var i := 0;
      while i < |entries| && entries[i].value < val
        invariant i <= |entries| && forall j :: 0 <= j < i ==> entries[j].value < val
      {
        i := i + 1;
      }
      if i < |entries| && entries[i].value == val {
        LookupAt(entries, i);
        return false; // multiple case entry
      }
      PutInPlace(i, Entry(val, lbl));
      ok := true;
    }

    /** Puts a new entry before the first greater one. */
    method PutInPlace(i: nat, e: Entry)
      requires Valid() && Fits(ty, e.value) && entries != [] && i <= |entries|
      requires (i < |entries| ==> e.value < entries[i].value) && forall j :: 0 <= j < i ==> entries[j].value < e.value
      modifies this`entries, this`lower, this`upper, this`nr
      ensures Valid() && Lookup(old(entries), e.value).None?
      ensures forall v :: Lookup(entries, v) == if v == e.value then Some(e.lbl) else Lookup(old(entries), v)
    {
      hide Sorted, Fits, Hosted, Lookup;
      ghost var es := entries;
      InsertSorted(es, i, e);
      LookupNone(es, e.value);
      if e.value < lower {
        lower := e.value;
      } else if e.value > upper {
        upper := e.value;
      }
      entries := entries[..i] + [e] + entries[i..];
      nr := nr + 1;
      forall v ensures Lookup(entries, v) == if v == e.value then Some(e.lbl) else Lookup(es, v) {
        LookupInserted(es, i, e, v);
      }
    }

    /** code_endswitch. The loop that fills the dense table counts in a writh: with the greatest one among the
        cases it runs past the end of the list. */
    method CodeEndSwitch(dflt: nat) returns (ok: bool, tab: Table)
      requires Valid()
      ensures ok <==> !(nr >= 2 && Compact(nr, lower, upper, width) && upper == Max(width))
      ensures ok ==> (tab.Dense? ==> |tab.labels| == tab.range + 1)
      ensures ok ==> forall v :: Fits(ty, v) ==> Dispatch(tab, v, ty.bits) == Or(Lookup(entries, v), dflt)
    {
      ok := true;
      if nr <= 1 {
        if nr == 1 {
          tab := One(lower, entries[0].lbl, dflt);
          forall v | Fits(ty, v) ensures Dispatch(tab, v, ty.bits) == Or(Lookup(entries, v), dflt) {
            if TA.Pat(v, ty.bits) == TA.Pat(lower, ty.bits) {
              SamePattern(ty, v, lower);
            }
          }
        } else {
          tab := Nothing(dflt);
        }
      } else if Compact(nr, lower, upper, width) {
        ok, tab := FillDense(dflt);
      } else {
        tab := Sparse(dflt, entries);
        forall v | Fits(ty, v) ensures Dispatch(tab, v, ty.bits) == Or(Lookup(entries, v), dflt) {
          SearchIsLookup(ty, entries, v);
        }
      }
    }

    method FillDense(dflt: nat) returns (ok: bool, tab: Table)
      requires Valid() && nr >= 2
      ensures ok <==> upper != Max(width)
      ensures ok ==> tab.Dense? && |tab.labels| == tab.range + 1
      ensures ok ==> forall v :: Fits(ty, v) ==> Dispatch(tab, v, ty.bits) == Or(Lookup(entries, v), dflt)
    {
      var val, ce, labels := lower, 0, [];
      assert lower <= upper;
      while val <= upper
        invariant ce <= |entries|
        invariant val == lower + |labels| || (upper == Max(width) && ce == |entries|)
        invariant val <= upper + 1 && (upper == Max(width) && ce < |entries| ==> val <= upper)
        invariant val <= upper && val == lower + |labels| ==> ce < |entries| && val <= entries[ce].value
        invariant forall j :: 0 <= j < ce && val == lower + |labels| ==> entries[j].value < val
        invariant val == upper + 1 ==> upper < Max(width)
        invariant val == lower + |labels| ==> forall j :: 0 <= j < |labels| ==> labels[j] == Or(Lookup(entries, lower + j), dflt)
        decreases |entries| - ce, upper - val
      {
        if ce == |entries| {
          return false, Nothing(dflt); // past the end of the list
        }
        if val == entries[ce].value {
          LookupAt(entries, ce);
          labels := labels + [entries[ce].lbl];
          ce := ce + 1;
        } else {
          NotThere(entries, ce, val);
          labels := labels + [dflt];
        }
        StepUp(val, width);
        val := Writh(val + 1, width);
      }
      ok := true;
      tab := Dense(dflt, lower, upper - lower, labels);
      forall v | Fits(ty, v) ensures Dispatch(tab, v, ty.bits) == Or(Lookup(entries, v), dflt) {
        IndexInRange(ty, v, lower, upper - lower);
        if v < lower || v > upper {
          LookupNone(entries, v);
        }
      }
    }
  }

  /** An entry goes before the first greater one. */
  lemma InsertSorted(es: seq<Entry>, i: nat, e: Entry)
    requires Sorted(es) && es != [] && i <= |es| && (i < |es| ==> e.value < es[i].value)
    requires forall j :: 0 <= j < i ==> es[j].value < e.value
    ensures Sorted(es[..i] + [e] + es[i..]) && forall j :: 0 <= j < |es| ==> es[j].value != e.value
    ensures es[0].value <= es[|es| - 1].value
    ensures if i < |es| then e.value < es[|es| - 1].value else es[|es| - 1].value < e.value
    ensures if i == 0 then e.value < es[0].value else es[0].value < e.value
  {
    forall j | i <= j < |es| ensures e.value < es[j].value {
      assert es[i].value <= es[j].value;
    }
  }

  lemma NotThere(es: seq<Entry>, ce: nat, v: int)
    requires Sorted(es) && ce < |es| && v < es[ce].value && forall j :: 0 <= j < ce ==> es[j].value < v
    ensures Lookup(es, v) == None
  {
    forall i | 0 <= i < |es| ensures es[i].value != v {
      if i > ce {
        assert es[ce].value < es[i].value;
      }
    }
    LookupNone(es, v);
  }

  lemma {:induction false} LookupInserted(es: seq<Entry>, i: nat, e: Entry, v: int)
    requires i <= |es| && forall j :: 0 <= j < |es| ==> es[j].value != e.value
    ensures Lookup(es[..i] + [e] + es[i..], v) == if v == e.value then Some(e.lbl) else Lookup(es, v)
    decreases i
  {
    var z := es[..i] + [e] + es[i..];
    if i == 0 {
      assert z[1..] == es;
    } else {
      assert z[0] == es[0] && z[1..] == es[1..][..i - 1] + [e] + es[1..][i - 1..];
      LookupInserted(es[1..], i - 1, e, v);
    }
  }

  /** The label of the first case with value v. */
  function FirstCase(cs: seq<Entry>, v: int): Option<nat>
  {
    if cs == [] then None
    else
      var before := FirstCase(cs[..|cs| - 1], v);
      if before.Some? then before else if cs[|cs| - 1].value == v then Some(cs[|cs| - 1].lbl) else None
  }

  /** The values of the cases, and the least of them. */
  ghost function Values(cs: seq<Entry>): set<int> { set i | 0 <= i < |cs| :: cs[i].value }

  ghost predicate IsLeast(low: int, vs: set<int>) { low in vs && forall v :: v in vs ==> low <= v }

  /** The cases that the dense table cannot be filled for: at least two different values, close together, and
      among them the greatest integer of the host. */
  ghost predicate Overruns(cs: seq<Entry>, w: nat)
    requires 0 < w
  {
    var vs := Values(cs);
    |vs| >= 2 && Max(w) in vs && exists low :: IsLeast(low, vs) && Compact(|vs|, low, Max(w), w)
  }

  /** A whole switch statement: whatever its cases, their order and the width of the host's integers, the table
      that is put out goes for every value of the type to the first case with that value, or else to the
      default; and a table is put out unless the filling of a dense one runs past the list. */
  method SwitchStatement(t: Type, w: nat, cs: seq<Entry>, dflt: nat) returns (ok: bool, tab: Table)
    requires Hosted(t, w) && forall i :: 0 <= i < |cs| ==> Fits(t, cs[i].value)
    ensures ok ==> (tab.Dense? ==> |tab.labels| == tab.range + 1)
    ensures ok ==> forall v :: Fits(t, v) ==> Dispatch(tab, v, t.bits) == Or(FirstCase(cs, v), dflt)
    ensures ok <==> !Overruns(cs, w)
    ensures t.low + TA.Pow2(t.bits) <= Max(w) ==> ok
  {
    var sh := new Header(t, w);
    assert cs[..0] == [];
    for i := 0 to |cs|
      invariant sh.Valid() && sh.ty == t && sh.width == w && fresh(sh)
      invariant forall v :: Lookup(sh.entries, v) == FirstCase(cs[..i], v)
    {
      assert cs[..i + 1][..i] == cs[..i] && cs[..i + 1][i] == cs[i];
      var known := sh.CodeCase(cs[i].value, cs[i].lbl);
    }
    assert cs[..|cs|] == cs;
    ok, tab := sh.CodeEndSwitch(dflt);
    SameOverrun(sh, cs);
  }

  /** The header's count and bounds are those of the case values. */
  lemma SameOverrun(sh: Header, cs: seq<Entry>)
    requires sh.Valid() && forall v :: Lookup(sh.entries, v) == FirstCase(cs, v)
    ensures Overruns(cs, sh.width) <==>
      sh.nr >= 2 && Compact(sh.nr, sh.lower, sh.upper, sh.width) && sh.upper == Max(sh.width)
  {
    var es, vs, m := sh.entries, Values(cs), Max(sh.width);
    forall v ensures v in vs <==> v in Values(es) {
      FirstCaseKnown(cs, v);
      LookupKnown(es, v);
    }
    assert vs == Values(es);
    CountSorted(es);
    if es != [] {
      assert es[0].value in vs && es[|es| - 1].value in vs;
      assert IsLeast(sh.lower, vs);
      assert forall v :: v in vs ==> v <= sh.upper;
      assert forall low :: IsLeast(low, vs) ==> low == sh.lower;
    }
  }

  lemma ValuesOfLast(es: seq<Entry>)
    requires es != []
    ensures Values(es) == Values(es[..|es| - 1]) + {es[|es| - 1].value}
  {
    var n := |es| - 1;
    forall v | v in Values(es) ensures v in Values(es[..n]) + {es[n].value} {
      var i :| 0 <= i < |es| && es[i].value == v;
      assert i < n ==> es[..n][i].value == v;
    }
    forall v | v in Values(es[..n]) ensures v in Values(es) {
      var i :| 0 <= i < n && es[..n][i].value == v;
      assert es[i].value == v;
    }
  }

  /** Different values are counted once each. */
  lemma {:induction false} CountSorted(es: seq<Entry>)
    requires Sorted(es)
    ensures |Values(es)| == |es|
  {
    if es != [] {
      var n := |es| - 1;
      CountSorted(es[..n]);
      ValuesOfLast(es);
      assert forall v :: v in Values(es[..n]) ==> v < es[n].value;
    }
  }

  lemma {:induction false} LookupKnown(es: seq<Entry>, v: int)
    requires Sorted(es)
    ensures v in Values(es) <==> Lookup(es, v).Some?
  {
    if v in Values(es) {
      var i :| 0 <= i < |es| && es[i].value == v;
      LookupAt(es, i);
    } else {
      forall i | 0 <= i < |es| ensures es[i].value != v {
        assert es[i].value in Values(es);
      }
      LookupNone(es, v);
    }
  }

  lemma {:induction false} FirstCaseKnown(cs: seq<Entry>, v: int)
    ensures v in Values(cs) <==> FirstCase(cs, v).Some?
  {
    if cs != [] {
      hide Values;
      FirstCaseKnown(cs[..|cs| - 1], v);
      ValuesOfLast(cs);
    } else {
      assert Values(cs) == {};
    }
  }

  /** On a host with 32-bit integers, a switch on a long with the two greatest values for cases runs past
      its list. */
  lemma LongOverruns(a: nat, b: nat)
    ensures Hosted(Type(32, -0x8000_0000), 32)
    ensures Overruns([Entry(0x7fff_fffe, a), Entry(0x7fff_ffff, b)], 32)
  {
    var cs := [Entry(0x7fff_fffe, a), Entry(0x7fff_ffff, b)];
    assert TA.Pow2(31) == 0x8000_0000 && TA.Pow2(32) == 0x1_0000_0000 by {
      assert TA.Pow2(8) == 256;
      TA.PowAdd(8, 8);
      TA.PowAdd(16, 8);
      TA.PowAdd(24, 7);
      TA.PowAdd(24, 8);
    }
    CountSorted(cs);
    assert cs[0].value in Values(cs) && cs[1].value in Values(cs);
    assert IsLeast(0x7fff_fffe, Values(cs));
    TA.WrapSame(1, 32, false);
  }
}
