/** The assembler's intermediate token file: what pass 1 writes, passes 2 and 3 read back. */
module TokenFile {
  import opened Wrappers
  import TA = TargetArith

  type byte = b: nat | b < 256

  const STRING: nat := 258
  const IDENT: nat := 259
  const FBSYM: nat := 260
  const CODE1: nat := 261
  const CODE2: nat := 262
  const CODE4: nat := 263
  const NUMBER0: nat := 264
  const NUMBER4: nat := 268
  const NUMBER8: nat := 269
  const NUMBERF: nat := 270
  const OP_OO: nat := 289
  const OP_LL: nat := 296
  const WORDSZ: nat := 2

  /** The machine that the assembler itself runs on: the bytes of valu_t and of a pointer. Where the compiler
      has no 64-bit integers, valu_t is 32 bits wide. */
  datatype Machine = Machine(valu: nat, ptr: nat)

  type Host = h: Machine | h.valu in {4, 8} && 0 < h.ptr witness Machine(8, 8)

  /** A token with its value: a character, a number, n bytes of code, a reference to an item, a text
      (a string or the digits of a floating number), an operator, or a keyword with its word. */
  datatype Tok =
    | Char(b: byte)
    | Number(v: int)
    | Code(n: nat, v: int)
    | Ref(c: nat, item: seq<byte>)
    | Txt(c: nat, s: seq<byte>)
    | Operator(c: nat)
    | Key(c: nat, w: seq<byte>)

  function Power(n: nat): (p: nat)
    ensures p > 0
  {
    if n == 0 then 1 else 256 * Power(n - 1)
  }

  /** A number below zero is kept with its sign in the highest of its bits. */
  predicate InValu(v: int, h: Host) { -(Power(h.valu) / 2) <= v < Power(h.valu) / 2 }

  predicate Valid(t: Tok, h: Host)
  {
    match t
    case Char(b) => b > 0
    case Number(v) => InValu(v, h)
    case Code(n, v) => n in {1, 2, 4} && if n == h.valu then InValu(v, h) else 0 <= v < Power(n)
    case Ref(c, p) => c in {IDENT, FBSYM} && |p| == h.ptr
    case Txt(c, s) => c in {STRING, NUMBERF} && |s| < Power(4) / 2
    case Operator(c) => OP_OO <= c <= OP_LL
    case Key(c, w) => 256 <= c < 0x10000 && !(STRING <= c <= NUMBERF) && !(OP_OO <= c <= OP_LL) && |w| == WORDSZ
  }

  // ---------- numbers, high byte first ----------

  function BigEndian(v: int, n: nat): (d: seq<byte>)
    ensures |d| == n
  {
    if n == 0 then [] else [(v / Power(n - 1)) % 256] + BigEndian(v, n - 1)
  }

  /** v <<= 8; v |= c, in a valu_t. */
  function Push(v: int, b: byte, h: Host): int
  {
    var u := (v * 256 + b) % Power(h.valu);
    if u < Power(h.valu) / 2 then u else u - Power(h.valu)
  }

  function Fold(v: int, d: seq<byte>, h: Host): int
    decreases |d|
  {
    if d == [] then v else Fold(Push(v, d[0], h), d[1..], h)
  }

  /** The number of bytes that putval counts: shifts until nothing is left, no more than there are. */
  function Size(v: int, n: nat, h: Host): (k: nat)
    requires n <= h.valu
    ensures n <= k <= h.valu
    decreases h.valu - n
  {
    if n == h.valu || v == 0 then n else Size(v / 256, n + 1, h)
  }

  lemma {:induction false} SizeHolds(v: int, n: nat, h: Host)
    requires n <= h.valu
    ensures Size(v, n, h) < h.valu ==> 0 <= v < Power(Size(v, n, h) - n)
    decreases h.valu - n
  {
    if n < h.valu && v != 0 {
      SizeHolds(v / 256, n + 1, h);
      var k := Size(v, n, h);
      assert k < h.valu ==> Power(k - n) == 256 * Power(k - n - 1);
    }
  }

  lemma {:induction false} FoldLast(v: int, d: seq<byte>, b: byte, h: Host)
    ensures Fold(v, d + [b], h) == Push(Fold(v, d, h), b, h)
    decreases |d|
  {
    if d == [] {
      assert (d + [b])[1..] == [];
    } else {
      assert (d + [b])[1..] == d[1..] + [b];
      FoldLast(Push(v, d[0], h), d[1..], b, h);
    }
  }

  lemma {:induction false} BigEndianLast(v: int, n: nat)
    requires n > 0
    ensures BigEndian(v, n) == BigEndian(v / 256, n - 1) + [v % 256]
  {
    if n > 1 {
      BigEndianLast(v, n - 1);
      DivideTwice(v, Power(n - 2));
    }
  }

  lemma DivideTwice(v: int, p: int)
    requires 0 < p
    ensures v / (256 * p) == v / 256 / p && v % (256 * p) == v / 256 % p * 256 + v % 256
  {
    var h := v / 256;
    var q, r := h / p, h % p;
    assert h == q * p + r && v == 256 * h + v % 256;
    TA.Associate(q, 256, p);
    assert q * (256 * p) == 256 * (q * p);
    TA.ModUnique(v, q, 256 * r + v % 256, 256 * p);
  }

  /** Reading back fewer bytes of v than valu_t has gives it modulo their range. */
  lemma {:induction false} FoldBack(v: int, n: nat, h: Host)
    requires n < h.valu
    ensures Fold(0, BigEndian(v, n), h) == v % Power(n)
    decreases n
  {
    hide Push;
    if n > 0 {
      BigEndianLast(v, n);
      FoldBack(v / 256, n - 1, h);
      FoldLast(0, BigEndian(v / 256, n - 1), v % 256, h);
      DivideTwice(v, Power(n - 1));
      PushSmall(v / 256 % Power(n - 1), v % 256, n, h);
    }
  }

  lemma {:induction false} PowerGrows(n: nat, m: nat)
    requires n < m
    ensures 256 * Power(n) <= Power(m)
    decreases m
  {
    if n < m - 1 {
      PowerGrows(n, m - 1);
    }
  }

  lemma PushSmall(u: nat, b: byte, n: nat, h: Host)
    requires 1 <= n < h.valu && u < Power(n - 1)
    ensures Push(u, b, h) == u * 256 + b
  {
    PowerGrows(n, h.valu);
    assert Power(n) == 256 * Power(n - 1);
    TA.ModUnique(u * 256 + b, 0, u * 256 + b, Power(h.valu));
  }

  /** Reading back n bytes of v gives v, if v fits them without a sign or they are all of valu_t; also eight
      bytes where valu_t has eight. */
  lemma NumberBack(v: int, n: nat, h: Host)
    requires n <= h.valu && if n == h.valu then InValu(v, h) else 0 <= v < Power(n)
    ensures Fold(0, BigEndian(v, n), h) == v
  {
    if n < h.valu {
      FoldBack(v, n, h);
      TA.ModUnique(v, 0, v, Power(n));
    } else {
      var m := Power(n);
      assert m == 256 * Power(n - 1);
      BigEndianLast(v, n);
      FoldBack(v / 256, n - 1, h);
      FoldLast(0, BigEndian(v / 256, n - 1), v % 256, h);
      DivideTwice(v, Power(n - 1));
      TA.ModUnique(v, if v < 0 then -1 else 0, if v < 0 then v + m else v, m);
      TA.ModUnique(if v < 0 then v + m else v, 0, if v < 0 then v + m else v, m);
    }
  }

  lemma Four()
    ensures Power(4) == 0x1_0000_0000
  {
    assert Power(2) == 0x10000;
    assert Power(4) == 256 * (256 * Power(2));
  }

  // ---------- tokens ----------

  function Two(lo: nat, hi: nat): nat { lo + 256 * hi }

  function Head(c: nat): seq<byte>
    requires c < 0x10000
  {
    [c % 256, c / 256]
  }

  /** How many bytes a number takes in the file, and its token. */
  function NumberBytes(v: int, h: Host): nat { if Size(v, 0, h) <= 4 then Size(v, 0, h) else 8 }

  function NumberToken(v: int, h: Host): nat { if Size(v, 0, h) <= 4 then NUMBER0 + Size(v, 0, h) else NUMBER8 }

  function Encode(t: Tok, h: Host): seq<byte>
    requires Valid(t, h)
  {
    match t
    case Char(b) => [b, 0]
    case Number(v) => Head(NumberToken(v, h)) + BigEndian(v, NumberBytes(v, h))
    case Code(n, v) => Head(if n == 1 then CODE1 else if n == 2 then CODE2 else CODE4) + BigEndian(v, n)
    case Ref(c, p) => Head(c) + p
    case Txt(c, s) => Head(c) + [Size(|s|, 0, h)] + BigEndian(|s|, Size(|s|, 0, h)) + s
    case Operator(c) => Head(c)
    case Key(c, w) => Head(c) + w
  }

  /** A token and where the next one begins. */
  datatype Got = Got(t: Tok, pos: nat)

  function Bytes(file: seq<byte>, pos: nat, n: nat): Option<seq<byte>>
  {
    if pos + n <= |file| then Some(file[pos..pos + n]) else None
  }

  /** The bytes of a number behind its token, by the token. */
  function Count(c: nat): nat
  {
    if c == CODE1 then 1 else if c == CODE2 then 2 else if c == CODE4 then 4
    else if NUMBER0 <= c <= NUMBER4 then c - NUMBER0 else 8
  }

  /** yylex in passes 2 and 3 with getval; nothing at the end of the file, or where it breaks off. */
  function Decode(file: seq<byte>, pos: nat, h: Host): Option<Got>
  {
    if pos + 2 > |file| then None
    else
      var c, p := Two(file[pos], file[pos + 1]), pos + 2;
      if c < 256 then Some(Got(Char(c), p))
      else if CODE1 <= c <= NUMBER8 then
        var d := Bytes(file, p, Count(c));
        if d.None? then None
        else Some(Got(if c <= CODE4 then Code(Count(c), Fold(0, d.value, h)) else Number(Fold(0, d.value, h)), p + Count(c)))
      else if c == STRING || c == NUMBERF then DecodeText(file, p, c, h)
      else if OP_OO <= c <= OP_LL then Some(Got(Operator(c), p))
      else
        var ref := c == IDENT || c == FBSYM;
        var n := if ref then h.ptr else WORDSZ;
        var d := Bytes(file, p, n);
        if d.None? then None else Some(Got(if ref then Ref(c, d.value) else Key(c, d.value), p + n))
  }

  function DecodeText(file: seq<byte>, p: nat, c: nat, h: Host): Option<Got>
  {
    if p >= |file| then None
    else
      var n := Count(file[p] + NUMBER0);
      var d := Bytes(file, p + 1, n);
      if d.None? then None
      else
        var k := Fold(0, d.value, h);
        if k < 0 then None
        else
          var s := Bytes(file, p + 1 + n, k);
          if s.None? then None else Some(Got(Txt(c, s.value), p + 1 + n + k))
  }

  /** The file holds d at pos. */
  predicate Here(file: seq<byte>, pos: nat, d: seq<byte>)
  {
    pos + |d| <= |file| && file[pos..pos + |d|] == d
  }

  lemma HereParts(file: seq<byte>, pos: nat, a: seq<byte>, b: seq<byte>)
    requires Here(file, pos, a + b)
    ensures Here(file, pos, a) && Here(file, pos + |a|, b)
  {
    assert file[pos..pos + |a|] == (a + b)[..|a|];
    assert file[pos + |a|..pos + |a| + |b|] == (a + b)[|a|..];
  }

  lemma HereHead(file: seq<byte>, pos: nat, c: nat)
    requires c < 0x10000 && Here(file, pos, Head(c))
    ensures Two(file[pos], file[pos + 1]) == c
  {
    assert file[pos..pos + 2][0] == file[pos] && file[pos..pos + 2][1] == file[pos + 1];
  }

  /** Reading a token where it was written gives it back. */
  lemma RoundTrip(t: Tok, file: seq<byte>, pos: nat, h: Host)
    requires Valid(t, h) && Here(file, pos, Encode(t, h))
    ensures Decode(file, pos, h) == Some(Got(t, pos + |Encode(t, h)|))
  {
    match t
    case Char(b) =>
      assert file[pos..pos + 2][0] == file[pos] && file[pos..pos + 2][1] == file[pos + 1];
    case Number(v) => NumberTokenBack(v, file, pos, h);
    case Code(n, v) => CodeBack(n, v, file, pos, h);
    case Ref(c, p) => RawBack(c, p, file, pos);
    case Txt(c, s) => TextBack(c, s, file, pos, h);
    case Operator(c) => HereHead(file, pos, c);
    case Key(c, w) => RawBack(c, w, file, pos);
  }

  lemma RawBack(c: nat, p: seq<byte>, file: seq<byte>, pos: nat)
    requires 256 <= c < 0x10000 && Here(file, pos, Head(c) + p)
    ensures Two(file[pos], file[pos + 1]) == c && Bytes(file, pos + 2, |p|) == Some(p)
  {
    HereParts(file, pos, Head(c), p);
    HereHead(file, pos, c);
  }

  lemma NumberTokenBack(v: int, file: seq<byte>, pos: nat, h: Host)
    requires Valid(Number(v), h) && Here(file, pos, Encode(Number(v), h))
    ensures Decode(file, pos, h) == Some(Got(Number(v), pos + |Encode(Number(v), h)|))
  {
    hide Power, Fold, BigEndian, Size;
    RawBack(NumberToken(v, h), BigEndian(v, NumberBytes(v, h)), file, pos);
    SizeHolds(v, 0, h);
    NumberBack(v, NumberBytes(v, h), h);
  }

  lemma CodeBack(n: nat, v: int, file: seq<byte>, pos: nat, h: Host)
    requires Valid(Code(n, v), h) && Here(file, pos, Encode(Code(n, v), h))
    ensures Decode(file, pos, h) == Some(Got(Code(n, v), pos + |Encode(Code(n, v), h)|))
  {
    hide Power, Fold, BigEndian, Size;
    RawBack(if n == 1 then CODE1 else if n == 2 then CODE2 else CODE4, BigEndian(v, n), file, pos);
    NumberBack(v, n, h);
  }

  /** A length below 2^32 takes at most four bytes. */
  lemma LengthSize(k: nat, h: Host)
    requires k < 0x1_0000_0000
    ensures Size(k, 0, h) <= 4 && k < Power(Size(k, 0, h))
  {
    SizeHolds(k, 0, h);
    var a := k / 256;
    var b := a / 256;
    var c := b / 256;
    assert c / 256 == 0;
    assert Size(k, 0, h) == if k == 0 then 0 else Size(a, 1, h);
    assert Size(a, 1, h) == if a == 0 then 1 else Size(b, 2, h);
    assert Size(b, 2, h) == if b == 0 then 2 else Size(c, 3, h);
    assert Size(c, 3, h) == if c == 0 then 3 else Size(c / 256, 4, h);
    assert Size(0, 4, h) == 4;
  }

  lemma TextBack(c: nat, s: seq<byte>, file: seq<byte>, pos: nat, h: Host)
    requires Valid(Txt(c, s), h) && Here(file, pos, Encode(Txt(c, s), h))
    ensures Decode(file, pos, h) == Some(Got(Txt(c, s), pos + |Encode(Txt(c, s), h)|))
  {
    hide Power, Fold, BigEndian, Size, DecodeText, Here, Bytes;
    Four();
    var n := Size(|s|, 0, h);
    TextParts(c, s, file, pos, n, BigEndian(|s|, n));
    LengthBack(s, file, pos + 2, c, n, BigEndian(|s|, n), h);
  }

  lemma TextParts(c: nat, s: seq<byte>, file: seq<byte>, pos: nat, n: byte, d: seq<byte>)
    requires 256 <= c < 0x10000 && Here(file, pos, Head(c) + [n] + d + s)
    ensures pos + 2 < |file| && Two(file[pos], file[pos + 1]) == c && file[pos + 2] == n
    ensures Bytes(file, pos + 3, |d|) == Some(d) && Bytes(file, pos + 3 + |d|, |s|) == Some(s)
  {
    hide Bytes, Here;
    HereParts(file, pos, Head(c) + [n] + d, s);
    HereBytes(file, pos + 3 + |d|, s);
    HeadParts(c, file, pos, n, d);
  }

  lemma HeadParts(c: nat, file: seq<byte>, pos: nat, n: byte, d: seq<byte>)
    requires 256 <= c < 0x10000 && Here(file, pos, Head(c) + [n] + d)
    ensures pos + 2 < |file| && Two(file[pos], file[pos + 1]) == c && file[pos + 2] == n
    ensures Bytes(file, pos + 3, |d|) == Some(d)
  {
    hide Bytes, Here;
    HereParts(file, pos, Head(c) + [n], d);
    HereBytes(file, pos + 3, d);
    HereParts(file, pos, Head(c), [n]);
    HereByte(file, pos + 2, n);
    HereHead(file, pos, c);
  }

  lemma LengthPositive(k: nat, h: Host)
    requires k < 0x8000_0000 && Size(k, 0, h) == h.valu
    ensures InValu(k, h)
  {
    LengthSize(k, h);
    Four();
  }

  lemma LengthBack(s: seq<byte>, file: seq<byte>, p: nat, c: nat, n: byte, d: seq<byte>, h: Host)
    requires |s| < 0x8000_0000 && n == Size(|s|, 0, h) && d == BigEndian(|s|, n) && p < |file| && file[p] == n
    requires Bytes(file, p + 1, |d|) == Some(d) && Bytes(file, p + 1 + |d|, |s|) == Some(s)
    ensures DecodeText(file, p, c, h) == Some(Got(Txt(c, s), p + 1 + n + |s|))
  {
    hide *;
    LengthSize(|s|, h);
    if n == h.valu {
      LengthPositive(|s|, h);
    }
    NumberBack(|s|, n, h);
    TextIs(file, p, c, d, s, h);
  }

  lemma HereByte(file: seq<byte>, p: nat, b: byte)
    requires Here(file, p, [b])
    ensures p < |file| && file[p] == b
  {
    assert file[p..p + 1][0] == file[p];
  }

  lemma HereBytes(file: seq<byte>, p: nat, d: seq<byte>)
    requires Here(file, p, d)
    ensures Bytes(file, p, |d|) == Some(d)
  {
  }

  lemma TextIs(file: seq<byte>, p: nat, c: nat, d: seq<byte>, s: seq<byte>, h: Host)
    requires p < |file| && |d| <= 4 && file[p] == |d| && Fold(0, d, h) == |s|
    requires Bytes(file, p + 1, |d|) == Some(d) && Bytes(file, p + 1 + |d|, |s|) == Some(s)
    ensures DecodeText(file, p, c, h) == Some(Got(Txt(c, s), p + 1 + |d| + |s|))
  {
    hide Bytes, Fold;
  }

  // ---------- the whole file ----------

  function EncodeAll(ts: seq<Tok>, h: Host): seq<byte>
    requires forall i :: 0 <= i < |ts| ==> Valid(ts[i], h)
  {
    if ts == [] then [] else EncodeAll(ts[..|ts| - 1], h) + Encode(ts[|ts| - 1], h)
  }

  lemma {:induction false} EncodePrefix(ts: seq<Tok>, k: nat, h: Host)
    requires k <= |ts| && forall i :: 0 <= i < |ts| ==> Valid(ts[i], h)
    ensures EncodeAll(ts[..k], h) <= EncodeAll(ts, h)
    decreases |ts|
  {
    if k == |ts| {
      assert ts[..k] == ts;
    } else {
      assert ts[..|ts| - 1][..k] == ts[..k];
      EncodePrefix(ts[..|ts| - 1], k, h);
    }
  }

  predicate AllValid(ts: seq<Tok>, h: Host) { forall i :: 0 <= i < |ts| ==> Valid(ts[i], h) }

  /** Where token k begins. */
  function Start(ts: seq<Tok>, k: nat, h: Host): nat
    requires k <= |ts| && AllValid(ts, h)
  {
    |EncodeAll(ts[..k], h)|
  }

  /** In a file of tokens, the one at its place is read back, and behind the last one nothing. */
  lemma Lossless(ts: seq<Tok>, k: nat, h: Host)
    requires k <= |ts| && forall i :: 0 <= i < |ts| ==> Valid(ts[i], h)
    ensures var file, pos := EncodeAll(ts, h), |EncodeAll(ts[..k], h)|;
      Decode(file, pos, h) == if k == |ts| then None else Some(Got(ts[k], |EncodeAll(ts[..k + 1], h)|))
  {
    hide Encode, Valid, EncodeAll;
    TakeNone(ts);
    if k < |ts| {
      hide Decode;
      EncodeNext(ts, k, h);
      EncodePrefix(ts, k + 1, h);
      Inside(EncodeAll(ts, h), EncodeAll(ts[..k], h), Encode(ts[k], h));
      RoundTrip(ts[k], EncodeAll(ts, h), |EncodeAll(ts[..k], h)|, h);
    }
  }

  lemma Inside(file: seq<byte>, a: seq<byte>, b: seq<byte>)
    requires a + b <= file
    ensures Here(file, |a|, b)
  {
  }

  /** tempfile */
  class TempFile {
    const h: Host
    var file: seq<byte>
    var pos: nat

    constructor (h: Host)
      ensures this.h == h && file == [] && pos == 0
    {
      this.h, file, pos := h, [], 0;
    }

    method Putc(b: byte)
      modifies this`file
      ensures file == old(file) + [b]
    {
      file := file + [b];
    }

    /** The low n bytes of v, high one first. */
    method PutNum(v: int, n: nat)
      modifies this`file
      ensures file == old(file) + BigEndian(v, n)
    {
      var i: nat := n;
      ghost var out := [];
      assert file == old(file) + out;
      while i > 0
        invariant i <= n && file == old(file) + out && out + BigEndian(v, i) == BigEndian(v, n)
      {
        i := i - 1;
        Putc((v / Power(i)) % 256);
        out := out + [(v / Power(i)) % 256];
      }
      assert out == BigEndian(v, n);
    }

    method PutBytes(d: seq<byte>)
      modifies this`file
      ensures file == old(file) + d
    {
      for i := 0 to |d|
        invariant file == old(file) + d[..i]
      {
        Putc(d[i]);
      }
      assert d[..|d|] == d;
    }

    method CountBytes(v: int) returns (n: nat)
      ensures n == Size(v, 0, h)
    {
      var w := v;
      n := 0;
      while n < h.valu && w != 0
        invariant n <= h.valu && Size(v, 0, h) == Size(w, n, h)
      {
        w, n := w / 256, n + 1;
      }
    }

    /** yylex in pass 1 with putval. */
    method PutTok(t: Tok)
      requires Valid(t, h)
      modifies this`file
      ensures file == old(file) + Encode(t, h)
    {
      hide Power, BigEndian, Size;
      match t
      case Char(b) =>
        Putc(b);
        Putc(0);
      case Number(v) =>
        var n := CountBytes(v);
        PutCode(if n <= 4 then NUMBER0 + n else NUMBER8, v, if n <= 4 then n else 8);
      case Code(n, v) => PutCode(if n == 1 then CODE1 else if n == 2 then CODE2 else CODE4, v, n);
      case Ref(c, p) => PutRaw(c, p);
      case Txt(c, s) => PutText(c, s);
      case Operator(c) => PutBytes(Head(c));
      case Key(c, w) => PutRaw(c, w);
    }

    method PutCode(c: nat, v: int, n: nat)
      requires c < 0x10000
      modifies this`file
      ensures file == old(file) + (Head(c) + BigEndian(v, n))
    {
      PutBytes(Head(c));
      PutNum(v, n);
      assert old(file) + Head(c) + BigEndian(v, n) == old(file) + (Head(c) + BigEndian(v, n));
    }

    method PutRaw(c: nat, p: seq<byte>)
      requires c < 0x10000
      modifies this`file
      ensures file == old(file) + (Head(c) + p)
    {
      PutBytes(Head(c));
      PutBytes(p);
      assert old(file) + Head(c) + p == old(file) + (Head(c) + p);
    }

    method PutText(c: nat, s: seq<byte>)
      requires Valid(Txt(c, s), h)
      modifies this`file
      ensures file == old(file) + Encode(Txt(c, s), h)
    {
      hide BigEndian, Size;
      var n := CountBytes(|s|);
      PutBytes(Head(c));
      Putc(n);
      PutNum(|s|, n);
      PutBytes(s);
      assert old(file) + Head(c) + [n] + BigEndian(|s|, n) + s == old(file) + (Head(c) + [n] + BigEndian(|s|, n) + s);
    }

    /** v <<= 8; v |= getc(), n times. */
    method GetNum(n: nat) returns (v: int)
      requires pos + n <= |file|
      modifies this`pos
      ensures pos == old(pos) + n && v == Fold(0, file[old(pos)..old(pos) + n], h)
    {
      v := 0;
      ghost var p := pos;
      for i := 0 to n
        invariant pos == p + i && v == Fold(0, file[p..p + i], h)
      {
        FoldLast(0, file[p..p + i], file[pos], h);
        assert file[p..p + i] + [file[pos]] == file[p..p + i + 1];
        v := Push(v, file[pos], h);
        pos := pos + 1;
      }
    }

    method GetBytes(n: nat) returns (d: seq<byte>)
      requires pos + n <= |file|
      modifies this`pos
      ensures pos == old(pos) + n && d == file[old(pos)..old(pos) + n]
    {
      d := [];
      ghost var p := pos;
      for i := 0 to n
        invariant pos == p + i && d == file[p..p + i]
      {
        d := d + [file[pos]];
        pos := pos + 1;
      }
    }

    /** yylex in passes 2 and 3 with getval. */
    method GetTok() returns (t: Option<Tok>)
      modifies this`pos
      ensures match Decode(file, old(pos), h) case None => t == None case Some(g) => t == Some(g.t) && pos == g.pos
    {
      hide Fold;
      if pos + 2 > |file| {
        return None;
      }
      var c := Two(file[pos], file[pos + 1]);
      pos := pos + 2;
      if c < 256 {
        return Some(Char(c));
      }
      if CODE1 <= c <= NUMBER8 {
        var n := Count(c);
        if pos + n > |file| {
          return None;
        }
        var v := GetNum(n);
        return Some(if c <= CODE4 then Code(n, v) else Number(v));
      }
      if c == STRING || c == NUMBERF {
        t := GetText(c);
        return;
      }
      if OP_OO <= c <= OP_LL {
        return Some(Operator(c));
      }
      var ref := c == IDENT || c == FBSYM;
      var n := if ref then h.ptr else WORDSZ;
      if pos + n > |file| {
        return None;
      }
      var d := GetBytes(n);
      t := Some(if ref then Ref(c, d) else Key(c, d));
    }

    method GetText(c: nat) returns (t: Option<Tok>)
      modifies this`pos
      ensures match DecodeText(file, old(pos), c, h) case None => t == None case Some(g) => t == Some(g.t) && pos == g.pos
    {
      hide Fold;
      if pos >= |file| {
        return None;
      }
      var n := Count(file[pos] + NUMBER0);
      pos := pos + 1;
      if pos + n > |file| {
        return None;
      }
      var k := GetNum(n);
      if k < 0 || pos + k > |file| {
        return None;
      }
      var s := GetBytes(k);
      t := Some(Txt(c, s));
    }
  }

  lemma EncodeNext(ts: seq<Tok>, i: nat, h: Host)
    requires i < |ts| && forall j :: 0 <= j < |ts| ==> Valid(ts[j], h)
    ensures EncodeAll(ts[..i + 1], h) == EncodeAll(ts[..i], h) + Encode(ts[i], h)
  {
    assert ts[..i + 1][..i] == ts[..i];
  }

  /** Pass 1 writes the tokens, a later pass reads them back: the same ones, in order, then the end. */
  method ThroughTheFile(ts: seq<Tok>, h: Host) returns (us: seq<Tok>)
    requires AllValid(ts, h)
    ensures us == ts
  {
    var f := new TempFile(h);
    assert ts[..0] == [];
    assert EncodeAll([], h) == [];
    hide Encode, EncodeAll, Decode;
    for i := 0 to |ts|
      invariant fresh(f) && f.h == h && f.pos == 0 && f.file == EncodeAll(ts[..i], h)
    {
      f.PutTok(ts[i]);
      EncodeNext(ts, i, h);
    }
    assert ts[..|ts|] == ts;
    us := ReadAll(f, ts, h);
  }

  method ReadAll(f: TempFile, ghost ts: seq<Tok>, h: Host) returns (us: seq<Tok>)
    requires AllValid(ts, h) && f.h == h && f.file == EncodeAll(ts, h) && f.pos == 0
    modifies f`pos
    ensures us == ts
  {
    hide AllValid, Valid;
    assert Start(ts, 0, h) == 0 by {
      assert ts[..0] == [];
    }
    hide *;
    us := [];
    TakeNone(ts);
    ghost var k := 0;
    var t := ReadOne(f, ts, 0, h);
    while t.Some?
      invariant 0 <= k <= |ts| && us == ts[..k]
      invariant k == |ts| ==> t == None
      invariant k < |ts| ==> t == Some(ts[k]) && f.pos == Start(ts, k + 1, h)
      decreases |ts| - k
    {
      TakeMore(ts, k);
      us := us + [t.value];
      k := k + 1;
      t := ReadOne(f, ts, k, h);
    }
    TakeNone(ts);
  }

  lemma TakeMore(ts: seq<Tok>, k: nat)
    requires k < |ts|
    ensures ts[..k] + [ts[k]] == ts[..k + 1]
  {
  }

  lemma TakeNone(ts: seq<Tok>)
    ensures ts[..0] == [] && ts[..|ts|] == ts
  {
  }

  method ReadOne(f: TempFile, ghost ts: seq<Tok>, ghost k: nat, h: Host) returns (t: Option<Tok>)
    requires k <= |ts| && AllValid(ts, h)
    requires f.h == h && f.file == EncodeAll(ts, h) && f.pos == Start(ts, k, h)
    modifies f`pos
    ensures k == |ts| ==> t == None
    ensures k < |ts| ==> t == Some(ts[k]) && f.pos == Start(ts, k + 1, h)
  {
    hide Encode, EncodeAll, Decode, Valid;
    Lossless(ts, k, h);
    t := f.GetTok();
  }
}
