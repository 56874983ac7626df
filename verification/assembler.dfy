/** The assembler's branch shortening in three passes: pass 1 is pessimistic, pass 2 shrinks and records
    its choices, pass 3 follows the record. Sections, alignment and plain label branches. */
module BranchSpec {
  import TA = TargetArith

  const SECTMAX: nat := 64
  const ALIGNWORD: nat := 2
  const ALIGNSECT: nat := 2
  /** PBITTABSZ chunks of BITCHUNK decisions. */
  const MAXBITS: nat := 128 * 16384

  type section = s: nat | s < SECTMAX

  datatype Item =
    | Sect(s: section)
    | Bytes(n: nat)
    | Align(k: nat)
    | Label(l: nat)
    | Branch(l: nat)

  /** The section in force before item i; -1 before the first .sect. */
  function Cur(p: seq<Item>, i: nat): (c: int)
    requires i <= |p|
    ensures -1 <= c < SECTMAX
  {
    if i == 0 then -1 else if p[i - 1].Sect? then p[i - 1].s else Cur(p, i - 1)
  }

  function AlignBytes(k: nat): nat { if k == 0 then ALIGNWORD else k }

  /** The bytes up to the next multiple of k. */
  function Gap(dot: nat, k: nat): (g: nat)
    requires 0 < k
    ensures g < k
  {
    if dot % k == 0 then 0 else k - dot % k
  }

  lemma GapAligns(dot: nat, k: nat)
    requires 0 < k
    ensures (dot + Gap(dot, k)) % k == 0
  {
    var q := dot / k + if dot % k == 0 then 0 else 1;
    assert dot == k * (dot / k) + dot % k;
    assert dot + Gap(dot, k) == k * q;
    TA.ModUnique(dot + Gap(dot, k), q, 0, k);
  }

  predicate Fitb(v: int) { -128 <= v < 128 }

  predicate Fitw(v: int) { -32768 <= v < 32768 }

  // ---------- pass 1: everything at its largest ----------

  function Size1(it: Item): nat
  {
    match it
    case Bytes(n) => n
    case Align(k) => AlignBytes(k) - 1
    case Branch(_) => 4
    case _ => 0
  }

  /** Address in section s before item i, in pass 1. */
  function A1(p: seq<Item>, i: nat, s: int): nat
    requires i <= |p|
  {
    if i == 0 then 0 else A1(p, i - 1, s) + if Cur(p, i - 1) == s then Size1(p[i - 1]) else 0
  }

  /** Where label l is defined first; |p| if nowhere. */
  function DefAt(p: seq<Item>, l: nat): (j: nat)
    ensures j <= |p|
    ensures j < |p| ==> p[j] == Label(l)
    ensures forall k :: 0 <= k < j ==> p[k] != Label(l)
  {
    DefFrom(p, l, 0)
  }

  function DefFrom(p: seq<Item>, l: nat, k: nat): (j: nat)
    requires k <= |p|
    ensures k <= j <= |p|
    ensures j < |p| ==> p[j] == Label(l)
    ensures forall m :: k <= m < j ==> p[m] != Label(l)
    decreases |p| - k
  {
    if k == |p| || p[k] == Label(l) then k else DefFrom(p, l, k + 1)
  }

  /** Label l is defined in the section that is in force at item i. */
  predicate SameSection(p: seq<Item>, i: nat, l: nat)
    requires i <= |p|
  {
    DefAt(p, l) < |p| && Cur(p, DefAt(p, l)) == Cur(p, i)
  }

  // ---------- pass 2: the short branches and what they do to addresses ----------

  /** Does the branch at i get the short form? A label further on is judged by the pessimistic
      distance of pass 1, a label further back by the distance it has by now. b is the -b flag. */
  function Short(p: seq<Item>, i: nat, b: bool): bool
    requires i < |p| && p[i].Branch?
    decreases i, 1
  {
    var l := p[i].l;
    var j := DefAt(p, l);
    var s := Cur(p, i);
    !b && SameSection(p, i, l)
    && if i < j then Fitb(A1(p, j, s) - A1(p, i, s) - 2) else j < i && Fitb(A2(p, j, s, b) - A2(p, i, s, b) - 2)
  }

  function Size2(p: seq<Item>, i: nat, b: bool): nat
    requires i < |p|
    decreases i, 2
  {
    match p[i]
    case Bytes(n) => n
    case Align(k) => Gap(A2(p, i, Cur(p, i), b), AlignBytes(k))
    case Branch(_) => if Short(p, i, b) then 2 else 4
    case _ => 0
  }

  /** Address in section s before item i, in passes 2 and 3. */
  function A2(p: seq<Item>, i: nat, s: int, b: bool): nat
    requires i <= |p|
    decreases i, 0
  {
    if i == 0 then 0 else A2(p, i - 1, s, b) + if Cur(p, i - 1) == s then Size2(p, i - 1, b) else 0
  }

  /** Decisions asked for before item i. */
  function Asked(p: seq<Item>, i: nat, b: bool): (n: nat)
    requires i <= |p|
    ensures n <= i
  {
    if i == 0 then 0 else Asked(p, i - 1, b) + if p[i - 1].Branch? && !b then 1 else 0
  }

  // ---------- what the passes reject, and what pass 3 puts out ----------

  /** An alignment is legal when it and the section's alignment so far divide one way or the other. */
  predicate AlignOk(lign: nat, k: nat)
    requires 0 < lign
  {
    lign % AlignBytes(k) == 0 || AlignBytes(k) % lign == 0
  }

  function NewLign(lign: nat, k: nat): (n: nat)
    ensures 0 < lign ==> 0 < n
  {
    if lign % AlignBytes(k) != 0 then AlignBytes(k) else lign
  }

  /** The alignment of section s before item i. */
  function LignAt(p: seq<Item>, i: nat, s: int): (n: nat)
    requires i <= |p|
    ensures 0 < n
  {
    if i == 0 then ALIGNSECT
    else if p[i - 1].Align? && Cur(p, i - 1) == s then NewLign(LignAt(p, i - 1, s), p[i - 1].k)
    else LignAt(p, i - 1, s)
  }

  /** Item i passes pass 1: a section is in force, a label is new, an alignment agrees with those before
      it, and the bit table has room. */
  predicate Legal(p: seq<Item>, i: nat, b: bool)
    requires i < |p|
  {
    p[i].Sect? ||
    (Cur(p, i) >= 0
     && (p[i].Label? ==> DefAt(p, p[i].l) == i)
     && (p[i].Align? ==> AlignOk(LignAt(p, i, Cur(p, i)), p[i].k))
     && (p[i].Branch? ==> b || Asked(p, i, b) < MAXBITS))
  }

  predicate LegalUpTo(p: seq<Item>, i: nat, b: bool)
    requires i <= |p|
  {
    forall k :: 0 <= k < i ==> Legal(p, k, b)
  }

  /** What a label stands for in the end. */
  function Final(p: seq<Item>, l: nat, b: bool): nat
  {
    var j := DefAt(p, l);
    if j < |p| then A2(p, j, Cur(p, j), b) else 0
  }

  /** The displacement of the branch at i in the end. */
  function Disp(p: seq<Item>, i: nat, b: bool): int
    requires i < |p| && p[i].Branch?
  {
    Final(p, p[i].l, b) - (A2(p, i, Cur(p, i), b) + 2)
  }

  /** A branch is encodable when it is short or its displacement fits a word. */
  predicate Encodable(p: seq<Item>, i: nat, b: bool)
    requires i < |p|
  {
    p[i].Branch? ==> Short(p, i, b) || Fitw(Disp(p, i, b))
  }

  predicate EncodableUpTo(p: seq<Item>, i: nat, b: bool)
    requires i <= |p|
  {
    forall k :: 0 <= k < i ==> Encodable(p, k, b)
  }

  /** What pass 3 puts out at an address: data, zeroes, or one of the three forms of a branch. */
  datatype Code = Data(n: nat) | Fill(n: nat) | Nop | ShortBra(disp: nat) | LongBra(disp: nat)
  datatype Emitted = Emitted(sect: int, addr: nat, code: Code)

  /** The opcode word's displacement: a byte, a nop for a short branch to the next instruction, or a
      word behind the opcode. */
  function BranchCode(short: bool, v: int): Code
  {
    if !short then LongBra(v % 0x10000) else if v == 0 then Nop else ShortBra(v % 0x100)
  }

  /** Where the processor goes from a branch at address a: relative to the word behind the opcode, with
      the displacement taken as signed. */
  function Goes(c: Code, a: int): int
    requires c.Nop? || c.ShortBra? || c.LongBra?
  {
    match c
    case Nop => a + 2
    case ShortBra(d) => a + 2 + if d < 0x80 then d else d - 0x100
    case LongBra(d) => a + 2 + if d < 0x8000 then d else d - 0x10000
  }

  function Image(p: seq<Item>, i: nat, b: bool): seq<Emitted>
    requires i <= |p|
  {
    if i == 0 then [] else Image(p, i - 1, b) + ImageOf(p, i - 1, b)
  }

  function ImageOf(p: seq<Item>, i: nat, b: bool): seq<Emitted>
    requires i < |p|
  {
    var s := Cur(p, i);
    var a := A2(p, i, s, b);
    match p[i]
    case Bytes(n) => [Emitted(s, a, Data(n))]
    case Align(k) => [Emitted(s, a, Fill(Gap(a, AlignBytes(k))))]
    case Branch(_) => [Emitted(s, a, BranchCode(Short(p, i, b), Disp(p, i, b)))]
    case _ => []
  }

  // ---------- what makes the scheme work ----------

  /** The gain never shrinks along a section. */
  lemma {:induction false} GainGrows(p: seq<Item>, i: nat, j: nat, s: int, b: bool)
    requires i <= j <= |p|
    ensures A1(p, i, s) - A2(p, i, s, b) <= A1(p, j, s) - A2(p, j, s, b)
    ensures A1(p, i, s) <= A1(p, j, s) && A2(p, i, s, b) <= A2(p, j, s, b)
    decreases j - i
  {
    if i < j {
      GainGrows(p, i, j - 1, s, b);
    }
  }

  /** What one more item does to everything that is counted along the program. */
  lemma Next(p: seq<Item>, i: nat, b: bool)
    requires i < |p|
    ensures Cur(p, i + 1) == if p[i].Sect? then p[i].s else Cur(p, i)
    ensures Asked(p, i + 1, b) == Asked(p, i, b) + if p[i].Branch? && !b then 1 else 0
    ensures Image(p, i + 1, b) == Image(p, i, b) + ImageOf(p, i, b)
    ensures p[i].Branch? ==> Size2(p, i, b) == if Short(p, i, b) then 2 else 4
    ensures p[i].Align? ==> Size2(p, i, b) == Gap(A2(p, i, Cur(p, i), b), AlignBytes(p[i].k))
    ensures p[i].Bytes? ==> Size2(p, i, b) == p[i].n
    ensures p[i].Sect? || p[i].Label? ==> Size2(p, i, b) == 0
  {
  }

  lemma NextIn(p: seq<Item>, i: nat, s: int, b: bool)
    requires i < |p|
    ensures A1(p, i + 1, s) == A1(p, i, s) + if Cur(p, i) == s then Size1(p[i]) else 0
    ensures A2(p, i + 1, s, b) == A2(p, i, s, b) + if Cur(p, i) == s then Size2(p, i, b) else 0
    ensures LignAt(p, i + 1, s)
         == if p[i].Align? && Cur(p, i) == s then NewLign(LignAt(p, i, s), p[i].k) else LignAt(p, i, s)
  {
  }

  lemma Start(p: seq<Item>, b: bool)
    ensures Cur(p, 0) == -1 && Asked(p, 0, b) == 0 && Image(p, 0, b) == []
    ensures forall s :: A1(p, 0, s) == 0 && A2(p, 0, s, b) == 0 && LignAt(p, 0, s) == ALIGNSECT
  {
  }

  /** Every decision has its own number. */
  lemma {:induction false} AskedGrows(p: seq<Item>, i: nat, j: nat, b: bool)
    requires i < j <= |p|
    ensures Asked(p, i, b) + (if p[i].Branch? && !b then 1 else 0) <= Asked(p, j, b)
    decreases j
  {
    if i + 1 < j {
      AskedGrows(p, i, j - 1, b);
    }
  }

  lemma Divides(a: nat, b: nat, c: nat)
    requires 0 < b && 0 < c && a % b == 0 && b % c == 0
    ensures a % c == 0
  {
    assert a == b * (a / b) && b == c * (b / c);
    assert c * (b / c) * (a / b) == c * ((b / c) * (a / b));
    TA.ModUnique(a, (b / c) * (a / b), 0, c);
  }

  /** An accepted alignment leaves a section alignment that both the old one and the new one divide. */
  lemma NewLignDivides(lign: nat, k: nat)
    requires 0 < lign && AlignOk(lign, k)
    ensures NewLign(lign, k) % lign == 0 && NewLign(lign, k) % AlignBytes(k) == 0
  {
    TA.ModUnique(lign, 1, 0, lign);
    TA.ModUnique(AlignBytes(k), 1, 0, AlignBytes(k));
  }

  /** An alignment accepted in pass 1 divides the section's final one, so no later pass rejects it. */
  lemma {:induction false} AlignLater(p: seq<Item>, i: nat, j: nat, b: bool)
    requires i < j <= |p| && p[i].Align? && LegalUpTo(p, j, b)
    ensures LignAt(p, j, Cur(p, i)) % AlignBytes(p[i].k) == 0
    decreases j
  {
    hide Cur, DefAt, Asked, LignAt, NewLign, AlignOk;
    var s, m := Cur(p, i), j - 1;
    assert Legal(p, m, b);
    NextIn(p, m, s, b);
    if p[m].Align? && Cur(p, m) == s {
      NewLignDivides(LignAt(p, m, s), p[m].k);
    }
    if i < m {
      AlignLater(p, i, m, b);
      if p[m].Align? && Cur(p, m) == s {
        Divides(LignAt(p, j, s), LignAt(p, m, s), AlignBytes(p[i].k));
      }
    }
  }

  /** Pass 1 is never below pass 2. */
  lemma Pessimistic(p: seq<Item>, i: nat, s: int, b: bool)
    requires i <= |p|
    ensures A2(p, i, s, b) <= A1(p, i, s)
  {
    GainGrows(p, 0, i, s, b);
  }

  /** A branch judged short in pass 2 still reaches its label with a byte when all later shrinking
      is done. */
  lemma ShortStaysShort(p: seq<Item>, i: nat, b: bool)
    requires i < |p| && p[i].Branch? && Short(p, i, b)
    ensures !b && SameSection(p, i, p[i].l)
    ensures Fitb(A2(p, DefAt(p, p[i].l), Cur(p, i), b) - A2(p, i, Cur(p, i), b) - 2)
  {
    var j, s := DefAt(p, p[i].l), Cur(p, i);
    if i < j {
      GainGrows(p, i, j, s, b);
      GainGrows(p, i + 1, j, s, b);
    }
  }

  /** In pass 2 a forward label, still at its pass-1 value, shows a positive distance and a backward one
      a negative distance: the sign alone tells which of them to correct by the gain so far, and the
      choice made on the corrected distance is the one of Short. */
  lemma SignTellsDirection(p: seq<Item>, i: nat, b: bool)
    requires i < |p| && p[i].Branch?
    ensures DefAt(p, p[i].l) != i
    ensures var j, s := DefAt(p, p[i].l), Cur(p, i);
      var v := (if i < j then A1(p, j, s) else A2(p, j, s, b)) - (A2(p, i, s, b) + 2);
      && (SameSection(p, i, p[i].l) ==> (0 < v <==> i < j))
      && Short(p, i, b) ==
         (!b && SameSection(p, i, p[i].l) && Fitb(if 0 < v then v - (A1(p, i, s) - A2(p, i, s, b)) else v))
  {
    var j, s := DefAt(p, p[i].l), Cur(p, i);
    if SameSection(p, i, p[i].l) {
      if i < j {
        GainGrows(p, i + 1, j, s, b);
        Pessimistic(p, i, s, b);
      } else {
        GainGrows(p, j, i, s, b);
      }
    }
  }

  // ---------- what the output means ----------

  /** The processor reads the displacement that was meant whenever the branch was encodable. */
  lemma CodeGoes(short: bool, v: int, a: int)
    requires if short then Fitb(v) else Fitw(v)
    ensures Goes(BranchCode(short, v), a) == a + 2 + v
  {
    if short {
      assert v % 0x100 == if v < 0 then v + 0x100 else v;
    } else {
      assert v % 0x10000 == if v < 0 then v + 0x10000 else v;
    }
  }

  /** Some displacement byte, or a no-operation, takes the processor from a branch at a to z. */
  ghost predicate ByteReaches(a: int, z: int)
  {
    Goes(Nop, a) == z || exists d: nat :: d < 0x100 && Goes(ShortBra(d), a) == z
  }

  /** Some displacement word does. */
  ghost predicate WordReaches(a: int, z: int)
  {
    exists d: nat :: d < 0x10000 && Goes(LongBra(d), a) == z
  }

  /** The ranges the assembler tests are exactly what the processor can reach. */
  lemma FitsExactly(v: int, a: int)
    ensures Fitb(v) <==> ByteReaches(a, a + 2 + v)
    ensures Fitw(v) <==> WordReaches(a, a + 2 + v)
  {
    if Fitb(v) {
      CodeGoes(true, v, a);
      assert Goes(ShortBra(v % 0x100), a) == a + 2 + v;
    }
    if Fitw(v) {
      CodeGoes(false, v, a);
      assert Goes(LongBra(v % 0x10000), a) == a + 2 + v;
    }
  }

  /** Where the label of the branch at i stands as pass 2 sees it there: a label further on at its address of
      pass 1 less what the section has gained so far. */
  function Seen(p: seq<Item>, i: nat, b: bool): int
    requires i < |p| && p[i].Branch?
  {
    var j, s := DefAt(p, p[i].l), Cur(p, i);
    if i < j then A1(p, j, s) - (A1(p, i, s) - A2(p, i, s, b)) else A2(p, j, s, b)
  }

  /** A branch is short exactly when a byte reaches the label where pass 2 sees it. */
  lemma ShortExactly(p: seq<Item>, i: nat, b: bool)
    requires i < |p| && p[i].Branch?
    ensures Short(p, i, b) <==>
      !b && SameSection(p, i, p[i].l) && ByteReaches(A2(p, i, Cur(p, i), b), Seen(p, i, b))
  {
    hide Fitb, ByteReaches;
    var a := A2(p, i, Cur(p, i), b);
    FitsExactly(Seen(p, i, b) - a - 2, a);
    assert DefAt(p, p[i].l) != i;
  }

  /** A branch can be encoded exactly when it is short or a word reaches its label. */
  lemma EncodableExactly(p: seq<Item>, i: nat, b: bool)
    requires i < |p|
    ensures Encodable(p, i, b) <==>
      (p[i].Branch? ==> Short(p, i, b) || WordReaches(A2(p, i, Cur(p, i), b), Final(p, p[i].l, b)))
  {
    if p[i].Branch? {
      hide Fitw, WordReaches, Short;
      FitsExactly(Disp(p, i, b), A2(p, i, Cur(p, i), b));
    }
  }

  lemma {:induction false} InImage(p: seq<Item>, i: nat, j: nat, b: bool)
    requires i < j <= |p|
    ensures forall e :: e in ImageOf(p, i, b) ==> e in Image(p, j, b)
    decreases j
  {
    if i + 1 < j {
      InImage(p, i, j - 1, b);
    }
  }

  /** Every encodable branch to a label of its own section is in the output, and the processor goes
      exactly to the place where the label ends up. */
  lemma BranchLands(p: seq<Item>, i: nat, b: bool)
    requires i < |p| && p[i].Branch? && Encodable(p, i, b) && SameSection(p, i, p[i].l)
    ensures var a, j := A2(p, i, Cur(p, i), b), DefAt(p, p[i].l);
      var c := BranchCode(Short(p, i, b), Disp(p, i, b));
      && Emitted(Cur(p, i), a, c) in Image(p, |p|, b)
      && Goes(c, a) == A2(p, j, Cur(p, j), b)
  {
    if Short(p, i, b) {
      ShortStaysShort(p, i, b);
    }
    CodeGoes(Short(p, i, b), Disp(p, i, b), A2(p, i, Cur(p, i), b));
    InImage(p, i, |p|, b);
    assert ImageOf(p, i, b)[0] in ImageOf(p, i, b);
  }

  function Len(c: Code): nat
  {
    match c
    case Data(n) => n
    case Fill(n) => n
    case Nop => 2
    case ShortBra(_) => 2
    case LongBra(_) => 4
  }

  /** What is put out later in a section lies behind everything put out before it. */
  lemma NoOverlap(p: seq<Item>, i: nat, j: nat, b: bool, e: Emitted, f: Emitted)
    requires i < j < |p| && Cur(p, i) == Cur(p, j) && e in ImageOf(p, i, b) && f in ImageOf(p, j, b)
    ensures e.addr + Len(e.code) <= f.addr
  {
    Next(p, i, b);
    NextIn(p, i, Cur(p, i), b);
    GainGrows(p, i + 1, j, Cur(p, i), b);
  }

  /** What is put out leaves no gap: an item moves its section by exactly the length of its output, and no
      other section. */
  lemma NoGap(p: seq<Item>, i: nat, s: int, b: bool)
    requires i < |p|
    ensures |ImageOf(p, i, b)| <= 1
    ensures A2(p, i + 1, s, b) == A2(p, i, s, b)
         + if Cur(p, i) == s && ImageOf(p, i, b) != [] then Len(ImageOf(p, i, b)[0].code) else 0
    ensures forall e :: e in ImageOf(p, i, b) ==> e.sect == Cur(p, i) && e.addr == A2(p, i, Cur(p, i), b)
  {
    Next(p, i, b);
    NextIn(p, i, s, b);
  }

  /** Pass 1 counts the largest size that an item can have, and no more. */
  lemma Largest(p: seq<Item>, i: nat, b: bool)
    requires i < |p|
    ensures Size2(p, i, b) <= Size1(p[i])
    ensures p[i].Branch? ==> Size1(p[i]) == Len(LongBra(0)) && (Size2(p, i, b) == Size1(p[i]) <==> !Short(p, i, b))
    ensures p[i].Align? ==> exists dot: nat :: Gap(dot, AlignBytes(p[i].k)) == Size1(p[i])
    ensures !p[i].Branch? && !p[i].Align? ==> Size2(p, i, b) == Size1(p[i])
  {
    if p[i].Align? {
      var k := AlignBytes(p[i].k);
      assert Gap(1, k) == k - 1 by {
        if k > 1 { TA.ModUnique(1, 0, 1, k); }
      }
    }
  }

  /** An alignment is accepted exactly when the addresses aligned for it and those aligned for the section so
      far lie one within the other. */
  lemma AlignAccepted(lign: nat, k: nat)
    requires 0 < lign
    ensures AlignOk(lign, k) <==>
      (forall a: nat :: a % lign == 0 ==> a % AlignBytes(k) == 0) || (forall a: nat :: a % AlignBytes(k) == 0 ==> a % lign == 0)
  {
    var m := AlignBytes(k);
    TA.ModUnique(lign, 1, 0, lign);
    TA.ModUnique(m, 1, 0, m);
    forall a: nat | lign % m == 0 && a % lign == 0 ensures a % m == 0 {
      Divides(a, lign, m);
    }
    forall a: nat | m % lign == 0 && a % m == 0 ensures a % lign == 0 {
      Divides(a, m, lign);
    }
  }

  /** An alignment leaves the section at a multiple of what it asked for. */
  lemma AlignAligns(p: seq<Item>, i: nat, b: bool)
    requires i < |p| && p[i].Align?
    ensures A2(p, i + 1, Cur(p, i), b) % AlignBytes(p[i].k) == 0
  {
    GapAligns(A2(p, i, Cur(p, i), b), AlignBytes(p[i].k));
  }
}

/** The three passes as the assembler runs them, over its own section table, symbol table and bit
    table. */
module Assembler {
  import opened BranchSpec

  /** A symbol: the section that defines it (-1: undefined, S_UND) and its value there. */
  datatype Sym = Sym(sect: int, val: int)

  function All(v: nat): (t: seq<nat>)
    ensures |t| == SECTMAX && forall s :: 0 <= s < SECTMAX ==> t[s] == v
  {
    seq(SECTMAX, _ => v)
  }

  class Asm {
    /** The -b option: no optimisation. */
    const bflag: bool
    var pass: nat
    /** DOTTYP (-1: S_UND, no section yet) and DOTVAL. */
    var cur: int
    var dot: nat
    /** s_size, s_gain and s_lign of every section. */
    var size: seq<nat>
    var gain: seq<nat>
    var lign: seq<nat>
    var syms: map<nat, Sym>
    /** The bit table and the number of decisions asked for so far in this pass. */
    var bits: seq<bool>
    var asked: nat
    var out: seq<Emitted>

    constructor (b: bool)
      ensures bflag == b && Fresh()
    {
      bflag := b;
      pass, cur, dot, asked := 1, -1, 0, 0;
      size, gain, lign := All(0), All(0), All(ALIGNSECT);
      syms, bits, out := map[], [], [];
    }

    ghost predicate Fresh()
      reads this
    {
      pass == 1 && cur == -1 && size == All(0) && gain == All(0) && lign == All(ALIGNSECT)
      && syms == map[] && bits == [] && asked == 0 && out == []
    }

    ghost predicate Tables()
      reads this
    {
      |size| == |gain| == |lign| == SECTMAX && -1 <= cur < SECTMAX && 1 <= pass <= 3
      && forall s :: 0 <= s < SECTMAX ==> 0 < lign[s]
    }

    ghost predicate InSection()
      reads this
    {
      Tables() && 0 <= cur
    }

    /** The address reached in section s. */
    ghost function Reached(s: int): nat
      requires Tables() && 0 <= s < SECTMAX
      reads this
    {
      if s == cur then dot else size[s]
    }

    // ---------- actions, the same in every pass ----------

    /** switchsect */
    method SwitchSect(s: int)
      requires -1 <= s < SECTMAX && Tables()
      modifies this`cur, this`dot, this`size
      ensures cur == s && Tables()
      ensures forall t :: 0 <= t < SECTMAX ==> Reached(t) == old(Reached(t))
    {
      if cur >= 0 {
        size := size[cur := dot];
      }
      if s >= 0 {
        dot := size[s];
      }
      cur := s;
    }

    /** small: pass 1 reserves a bit, pass 2 records the choice and its gain, pass 3 reads it back. The
        source's assertion is that pass 3 never reads a choice that no longer fits. */
    method Small(fits: bool, g: nat) returns (ok: bool, short: bool)
      requires InSection()
      requires pass != 1 && !bflag ==> asked < |bits|
      requires pass == 3 && !bflag && bits[asked] ==> fits
      modifies this`asked, this`bits, this`gain
      ensures bflag ==> ok && !short && asked == old(asked) && bits == old(bits) && gain == old(gain)
      ensures !bflag && pass == 1 ==> !short && gain == old(gain) && (ok <==> old(asked) != MAXBITS)
      ensures !bflag && pass == 1 && ok ==> asked == old(asked) + 1 && bits == old(bits) + [false]
      ensures !bflag && pass != 1 ==> ok && asked == old(asked) + 1
      ensures !bflag && pass == 2 ==> short == fits && bits == old(bits)[old(asked) := old(bits)[old(asked)] || fits]
      ensures !bflag && pass == 2 ==> gain == if fits then old(gain)[cur := old(gain)[cur] + g] else old(gain)
      ensures !bflag && pass == 3 ==> short == old(bits)[old(asked)] && bits == old(bits) && gain == old(gain)
    {
      ok, short := true, false;
      if bflag {
        return;
      }
      if pass == 1 {
        if asked == MAXBITS {
          return false, false;
        }
        bits, asked := bits + [false], asked + 1;
      } else if pass == 2 {
        if fits {
          gain := gain[cur := gain[cur] + g];
          bits := bits[asked := true];
        }
        short, asked := fits, asked + 1;
      } else {
        assert fits || !bits[asked];
        short, asked := bits[asked], asked + 1;
      }
    }

    /** emit1 and friends, for n bytes of code or data. */
    method Emit(c: Code, n: nat)
      requires InSection()
      modifies this`dot, this`out
      ensures dot == old(dot) + n
      ensures out == if pass == 3 then old(out) + [Emitted(cur, old(dot), c)] else old(out)
    {
      if pass == 3 {
        out := out + [Emitted(cur, dot, c)];
      }
      dot := dot + n;
    }

    /** align */
    method DoAlign(k: nat) returns (ok: bool)
      requires InSection()
      modifies this`dot, this`gain, this`lign, this`out
      ensures Tables()
      ensures ok <==> AlignOk(old(lign)[cur], k)
      ensures ok ==> lign == old(lign)[cur := NewLign(old(lign)[cur], k)]
      ensures ok ==> dot == old(dot) + if pass == 1 then AlignBytes(k) - 1 else Gap(old(dot), AlignBytes(k))
      ensures pass != 2 ==> gain == old(gain)
      ensures ok && pass == 2 ==>
        gain == old(gain)[cur := old(gain)[cur] + AlignBytes(k) - 1 - Gap(old(dot), AlignBytes(k))]
      ensures ok && pass != 3 ==> out == old(out)
      ensures ok && pass == 3 ==> out == old(out) + [Emitted(cur, old(dot), Fill(Gap(old(dot), AlignBytes(k))))]
    {
      ok := true;
      var bytes := AlignBytes(k);
      if lign[cur] % bytes != 0 {
        if bytes % lign[cur] != 0 {
          return false;
        }
        lign := lign[cur := bytes];
      }
      var gap: nat := bytes - 1;
      if pass != 1 {
        gap := Gap(dot, bytes);
        if pass == 2 {
          gain := gain[cur := gain[cur] + bytes - 1 - gap];
        }
      }
      Emit(Fill(gap), gap);
      assert lign == old(lign)[cur := NewLign(old(lign)[cur], k)];
    }

    /** newident and newlabel. The source asserts that pass 3 stores what pass 2 stored, and that pass 2
        stores the pass-1 value less the gain so far. */
    method NewLabel(l: nat) returns (ok: bool)
      requires InSection()
      requires pass == 2 ==> l in syms && syms[l].val - dot == gain[cur]
      requires pass == 3 ==> l in syms && syms[l].val == dot
      modifies this`syms
      ensures ok <==> !(pass == 1 && l in old(syms))
      ensures ok ==> syms == old(syms)[l := Sym(cur, dot)]
    {
      if pass == 1 && l in syms {
        return false; // multiple declared
      }
      ghost var oldval := if l in syms then syms[l].val else 0;
      assert pass != 3 || oldval == dot;
      syms := syms[l := Sym(cur, dot)];
      assert pass != 2 || oldval - syms[l].val == gain[cur];
      ok := true;
    }

    /** load and the type of a symbol: an undefined one has section -1 and value 0. */
    function Load(l: nat): Sym
      reads this`syms
    {
      if l in syms then syms[l] else Sym(-1, 0)
    }

    /** The operand of a branch as branch() computes it. */
    function Distance(l: nat): int
      requires InSection()
      reads this
    {
      var v := Load(l).val - (dot + 2);
      if pass == 2 && v > 0 then v - gain[cur] else v
    }

    /** branch */
    method DoBranch(l: nat) returns (ok: bool)
      requires InSection()
      requires pass != 1 && !bflag ==> asked < |bits|
      requires pass == 3 && !bflag && bits[asked] ==> Fitb(Distance(l)) && Load(l).sect == cur
      modifies this`asked, this`bits, this`gain, this`dot, this`out
      ensures pass != 2 ==> gain == old(gain)
      ensures pass == 1 ==> (ok <==> bflag || old(asked) != MAXBITS)
      ensures ok ==> asked == old(asked) + if bflag then 0 else 1
      ensures pass == 1 && ok ==> dot == old(dot) + 4 && out == old(out)
      ensures pass == 1 && ok ==> bits == if bflag then old(bits) else old(bits) + [false]
      ensures pass == 2 ==> ok && out == old(out)
      ensures pass == 2 ==>
        var short := !bflag && Fitb(old(Distance(l))) && Load(l).sect == cur;
        && dot == old(dot) + (if short then 2 else 4)
        && gain == (if short then old(gain)[cur := old(gain)[cur] + 2] else old(gain))
        && bits == if bflag then old(bits) else old(bits)[old(asked) := old(bits)[old(asked)] || short]
      ensures pass == 3 ==>
        var short := !bflag && old(bits)[old(asked)];
        var v := old(Distance(l));
        && (ok <==> short || Fitw(v))
        && bits == old(bits)
        && (ok ==> dot == old(dot) + if short then 2 else 4)
        && (ok ==> out == old(out) + [Emitted(cur, old(dot), BranchCode(short, v))])
    {
      var v := Distance(l);
      var sm := Fitb(v);
      if Load(l).sect != cur {
        sm := false;
      }
      var short;
      ok, short := Small(sm, 2);
      if !ok {
        return;
      }
      if short {
        Emit(BranchCode(true, v), 2);
      } else {
        if pass == 3 && !Fitw(v) {
          return false; // too big
        }
        Emit(BranchCode(false, v), 4);
      }
    }

    // ---------- what holds before item i in each pass ----------

    ghost predicate Symbol(p: seq<Item>, i: nat, l: nat)
      requires i <= |p|
      reads this
    {
      var j := DefAt(p, l);
      && (l in syms <==> j < if pass == 1 then i else |p|)
      && (l in syms ==>
            && syms[l].sect == Cur(p, j)
            && (pass == 1 || (pass == 2 && i <= j) ==> syms[l].val == A1(p, j, Cur(p, j)))
            && (pass == 3 || (pass == 2 && j < i) ==> syms[l].val == A2(p, j, Cur(p, j), bflag)))
    }

    ghost predicate Address(p: seq<Item>, i: nat, s: nat)
      requires i <= |p| && Tables() && s < SECTMAX
      reads this
    {
      && Reached(s) == (if pass == 1 then A1(p, i, s) else A2(p, i, s, bflag))
      && lign[s] == LignAt(p, if pass == 1 then i else |p|, s)
      && (pass == 2 ==> gain[s] == A1(p, i, s) - A2(p, i, s, bflag))
    }

    /** The bit of the branch at k. */
    ghost predicate Decision(p: seq<Item>, i: nat, k: nat)
      requires i <= |p| && k < |p|
      reads this
    {
      var a := Asked(p, k, bflag);
      p[k].Branch? && !bflag && pass != 1 ==>
        a < |bits| && bits[a] == (if pass == 3 || k < i then Short(p, k, bflag) else false)
    }

    ghost predicate Counted(p: seq<Item>, i: nat)
      requires i <= |p|
      reads this
    {
      && asked == Asked(p, i, bflag)
      && |bits| == (if pass == 1 then asked else Asked(p, |p|, bflag))
      && (pass == 1 ==> asked <= MAXBITS && forall k :: 0 <= k < |bits| ==> !bits[k])
    }

    ghost predicate At(p: seq<Item>, i: nat)
      requires i <= |p|
      reads this
    {
      cur == Cur(p, i) && Before(p, i)
    }

    ghost predicate Before(p: seq<Item>, i: nat)
      requires i <= |p|
      reads this
    {
      && Tables()
      && Counted(p, i)
      && (forall s: nat :: s < SECTMAX ==> Address(p, i, s))
      && (forall l: nat :: Symbol(p, i, l))
      && (forall k: nat :: k < |p| ==> Decision(p, i, k))
      && (pass != 1 ==> LegalUpTo(p, |p|, bflag))
      && out == (if pass == 3 then Image(p, i, bflag) else [])
    }

    /** The pass accepts item i. */
    ghost predicate Accepts(p: seq<Item>, i: nat)
      requires i < |p|
      reads this
    {
      (pass == 1 ==> Legal(p, i, bflag)) && (pass == 3 ==> Encodable(p, i, bflag))
    }

    method ItemAlign(p: seq<Item>, i: nat) returns (ok: bool)
      requires i < |p| && p[i].Align? && At(p, i) && InSection()
      modifies this
      ensures pass == old(pass)
      ensures ok <==> Accepts(p, i)
      ensures ok ==> At(p, i + 1)
    {
      hide Cur, A1, A2, LignAt, Asked, Image, Short, Size2, DefAt;
      Next(p, i, bflag);
      ghost var n := i + 1;
      assert Address(p, i, cur);
      if pass != 1 {
        assert Legal(p, i, bflag);
        AlignLater(p, i, |p|, bflag);
      }
      ok := DoAlign(p[i].k);
      if ok {
        forall s: nat | s < SECTMAX ensures Address(p, n, s) {
          NextIn(p, i, s, bflag);
          assert old(Address(p, i, s));
        }
        forall l: nat ensures Symbol(p, n, l) { assert old(Symbol(p, i, l)); }
        forall k: nat | k < |p| ensures Decision(p, n, k) { assert old(Decision(p, i, k)); }
      }
    }

    method ItemLabel(p: seq<Item>, i: nat) returns (ok: bool)
      requires i < |p| && p[i].Label? && At(p, i) && InSection()
      modifies this
      ensures pass == old(pass)
      ensures ok <==> Accepts(p, i)
      ensures ok ==> At(p, i + 1)
    {
      hide Cur, A1, A2, LignAt, Asked, Image, Short, Size2, DefAt;
      Next(p, i, bflag);
      ghost var n := i + 1;
      assert pass != 1 ==> Legal(p, i, bflag);
      assert Address(p, i, cur) && Symbol(p, i, p[i].l);
      ok := NewLabel(p[i].l);
      if ok {
        forall s: nat | s < SECTMAX ensures Address(p, n, s) {
          NextIn(p, i, s, bflag);
          assert old(Address(p, i, s));
        }
        forall l: nat ensures Symbol(p, n, l) {
          assert old(Symbol(p, i, l));
          assert DefAt(p, l) == i <==> l == p[i].l;
        }
        forall k: nat | k < |p| ensures Decision(p, n, k) { assert old(Decision(p, i, k)); }
      }
    }

    method ItemBranch(p: seq<Item>, i: nat) returns (ok: bool)
      requires i < |p| && p[i].Branch? && At(p, i) && InSection()
      modifies this
      ensures pass == old(pass)
      ensures ok <==> Accepts(p, i)
      ensures ok ==> At(p, i + 1)
    {
      hide BranchCode, Fitb, Fitw, Cur, A1, A2, LignAt, Asked, Image, Short, Size2, DefAt;
      Next(p, i, bflag);
      ghost var n := i + 1;
      var l := p[i].l;
      assert Address(p, i, cur) && Symbol(p, i, l) && Decision(p, i, i);
      SignTellsDirection(p, i, bflag);
      if pass == 3 && Short(p, i, bflag) {
        ShortStaysShort(p, i, bflag);
      }
      AskedGrows(p, i, |p|, bflag);
      ok := DoBranch(l);
      if ok {
        AfterBranch((p, i));
      }
    }

    /** What a branch leaves behind; at is the program and the place of the branch in it. */
    twostate lemma AfterBranch(at: (seq<Item>, nat))
      requires var (p, i) := at; i < |p| && p[i].Branch? && old(At(p, i)) && old(InSection())
      requires pass == old(pass) && cur == old(cur) && size == old(size) && lign == old(lign) && syms == old(syms)
      requires var (p, i) := at; asked == old(asked) + (if bflag then 0 else 1) && out == if pass == 3 then Image(p, i + 1, bflag) else []
      requires var (p, i) := at; dot == old(dot) + if pass == 1 then 4 else Size2(p, i, bflag)
      requires var (p, i) := at; gain == if pass == 2 && Short(p, i, bflag) then old(gain)[cur := old(gain)[cur] + 2] else old(gain)
      requires pass == 1 ==> asked <= MAXBITS && bits == if bflag then old(bits) else old(bits) + [false]
      requires var (p, i) := at; pass == 2 && !bflag ==> old(asked) < |old(bits)| && bits == old(bits)[old(asked) := Short(p, i, bflag)]
      requires pass == 3 || (pass == 2 && bflag) ==> bits == old(bits)
      ensures At(at.0, at.1 + 1)
    {
      hide Cur, A1, A2, LignAt, Asked, Image, Short, Size2, DefAt;
      var (p, i) := at;
      Next(p, i, bflag);
      ghost var n := i + 1;
      forall s: nat | s < SECTMAX ensures Address(p, n, s) {
        NextIn(p, i, s, bflag);
        assert old(Address(p, i, s));
      }
      forall m: nat ensures Symbol(p, n, m) { assert old(Symbol(p, i, m)); }
      forall k: nat | k < |p| ensures Decision(p, n, k) {
        assert old(Decision(p, i, k));
        if k < i { AskedGrows(p, k, i, bflag); }
        if i < k { AskedGrows(p, i, k, bflag); }
      }
    }

    /** One statement of the source as the grammar's actions treat it. */
    method DoItem(p: seq<Item>, i: nat) returns (ok: bool)
      requires i < |p| && At(p, i)
      modifies this
      ensures pass == old(pass)
      ensures ok <==> Accepts(p, i)
      ensures ok ==> At(p, i + 1)
    {
      hide Cur, A1, A2, LignAt, Asked, Image, Short, Size2, DefAt;
      Next(p, i, bflag);
      ghost var n := i + 1;
      if p[i].Sect? || p[i].Bytes? {
        if p[i].Sect? {
          SwitchSect(p[i].s);
        } else {
          assert pass != 1 ==> Legal(p, i, bflag);
          if cur < 0 {
            return false; // no sections
          }
          assert Address(p, i, cur);
          Emit(Data(p[i].n), p[i].n);
        }
        ok := true;
        forall s: nat | s < SECTMAX ensures Address(p, n, s) {
          NextIn(p, i, s, bflag);
          assert old(Address(p, i, s));
        }
        forall l: nat ensures Symbol(p, n, l) { assert old(Symbol(p, i, l)); }
        forall k: nat | k < |p| ensures Decision(p, n, k) { assert old(Decision(p, i, k)); }
        return;
      }
      assert pass != 1 ==> Legal(p, i, bflag);
      if cur < 0 {
        return false;
      }
      match p[i]
      case Align(_) => ok := ItemAlign(p, i);
      case Label(_) => ok := ItemLabel(p, i);
      case Branch(_) => ok := ItemBranch(p, i);
    }

    /** yyparse over the statements of the source. */
    method Parse(p: seq<Item>) returns (ok: bool)
      requires At(p, 0)
      modifies this
      ensures pass == old(pass)
      ensures pass == 1 ==> (ok <==> LegalUpTo(p, |p|, bflag))
      ensures pass == 2 ==> ok
      ensures pass == 3 ==> (ok <==> EncodableUpTo(p, |p|, bflag))
      ensures ok ==> At(p, |p|)
    {
      hide At;
      var i := 0;
      while i < |p|
        invariant 0 <= i <= |p| && pass == old(pass) && At(p, i)
        invariant pass == 1 ==> LegalUpTo(p, i, bflag)
        invariant pass == 3 ==> EncodableUpTo(p, i, bflag)
      {
        ok := DoItem(p, i);
        if !ok {
          return;
        }
        i := i + 1;
      }
      ok := true;
    }

    /** commfinish */
    method Finish(ghost p: seq<Item>)
      requires Before(p, |p|)
      modifies this
      ensures pass == old(pass) && cur == -1 && Before(p, |p|) && out == old(out)
    {
      hide Cur, A1, A2, LignAt, Asked, Image, Short, DefAt;
      SwitchSect(-1);
      ghost var n := |p|;
      forall s: nat | s < SECTMAX ensures Address(p, n, s) { assert old(Address(p, n, s)); }
      forall l: nat ensures Symbol(p, n, l) { assert old(Symbol(p, n, l)); }
      forall k: nat | k < n ensures Decision(p, n, k) { assert old(Decision(p, n, k)); }
    }

    /** What pass_23 resets between two passes. */
    method Reset(ghost p: seq<Item>)
      requires Before(p, |p|) && cur == -1 && pass < 3 && LegalUpTo(p, |p|, bflag)
      modifies this
      ensures pass == old(pass) + 1 && At(p, 0)
    {
      hide A1, A2, LignAt, Asked, Image, Short, DefAt;
      pass := pass + 1;
      asked := 0;
      size, gain := All(0), All(0);
      Start(p, bflag);
      SwitchSect(-1); // newmodule
      ghost var n, z := |p|, 0;
      forall s: nat | s < SECTMAX ensures Address(p, z, s) { assert old(Address(p, n, s)); }
      forall l: nat ensures Symbol(p, z, l) { assert old(Symbol(p, n, l)); }
      forall k: nat | k < n ensures Decision(p, z, k) {
        assert old(Decision(p, n, k));
        AskedGrows(p, k, n, bflag);
      }
    }

    /** The whole assembly. It succeeds exactly when pass 1 accepts every statement and every branch can be
        encoded with the choices of pass 2; none of the source's assertions about the passes can fail on
        the way. */
    method Assemble(p: seq<Item>) returns (ok: bool)
      requires Fresh()
      modifies this
      ensures ok <==> LegalUpTo(p, |p|, bflag) && forall i :: 0 <= i < |p| && p[i].Branch? ==>
        Short(p, i, bflag) || WordReaches(A2(p, i, Cur(p, i), bflag), Final(p, p[i].l, bflag))
      ensures ok ==> out == Image(p, |p|, bflag)
      ensures ok ==> |size| == SECTMAX && forall s :: 0 <= s < SECTMAX ==> size[s] == A2(p, |p|, s, bflag)
      ensures ok ==> forall l: nat ::
        (l in syms <==> DefAt(p, l) < |p|) && Load(l).val == Final(p, l, bflag)
    {
      assert At(p, 0) by {
        Start(p, bflag);
      }
      forall i | 0 <= i < |p|
        ensures Encodable(p, i, bflag) <==>
          (p[i].Branch? ==> Short(p, i, bflag) || WordReaches(A2(p, i, Cur(p, i), bflag), Final(p, p[i].l, bflag)))
      {
        EncodableExactly(p, i, bflag);
      }
      hide Before, Legal, Encodable, WordReaches, Short, A2, Final, Cur;
      ok := Parse(p);
      if !ok {
        return;
      }
      Finish(p);
      Reset(p);
      ok := Parse(p);
      Finish(p);
      Reset(p);
      ok := Parse(p);
      if !ok {
        return;
      }
      Finish(p);
      assert Before(p, |p|);
      Result(p);
    }

    lemma Result(p: seq<Item>)
      requires Before(p, |p|) && pass == 3 && cur == -1
      ensures out == Image(p, |p|, bflag)
      ensures |size| == SECTMAX && forall s :: 0 <= s < SECTMAX ==> size[s] == A2(p, |p|, s, bflag)
      ensures forall l: nat :: (l in syms <==> DefAt(p, l) < |p|) && Load(l).val == Final(p, l, bflag)
    {
      forall s: nat | s < SECTMAX ensures size[s] == A2(p, |p|, s, bflag) { assert Address(p, |p|, s); }
      forall l: nat ensures (l in syms <==> DefAt(p, l) < |p|) && Load(l).val == Final(p, l, bflag) {
        assert Symbol(p, |p|, l);
      }
    }
  }
}
