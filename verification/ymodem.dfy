/** Packets of the YMODEM receiver: from symbols on the line to blocks. */
module YmodemPacket {
  import opened Crc16

  const SOH: byte := 0x01
  const STX: byte := 0x02
  const EOT: byte := 0x04
  const CAN: byte := 0x18
  /** Size of the receiver's packet buffer. */
  const DATASZ: nat := 1024

  /** What a read from the line gives: a byte, or nothing in time. */
  datatype Sym = Got(b: byte) | Silence

  /** What packet_read gives. A block comes with the whole packet buffer; its payload is data[..len]. */
  datatype Rx = Block(num: byte, len: nat, data: seq<byte>) | Eot | Can | BadMarker | BadHeader | BadCrc | Timeout

  /** Also how far the line has been read and what the buffer holds now. */
  datatype Read = Read(rx: Rx, pos: nat, data: seq<byte>)

  /** Behind the end of the input the line is silent. */
  function At(input: seq<Sym>, pos: nat): Sym
  {
    if pos < |input| then input[pos] else Silence
  }

  predicate AllGot(input: seq<Sym>, lo: nat, hi: nat)
  {
    forall i :: lo <= i < hi ==> At(input, i).Got?
  }

  /** The number of bytes, at most n, that come before a silence. */
  function Heard(input: seq<Sym>, pos: nat, n: nat): (k: nat)
    ensures k <= n && AllGot(input, pos, pos + k)
    ensures k < n ==> At(input, pos + k).Silence?
    decreases n
  {
    if n == 0 || At(input, pos).Silence? then 0 else 1 + Heard(input, pos + 1, n - 1)
  }

  function Bytes(input: seq<Sym>, pos: nat, n: nat): (d: seq<byte>)
    requires AllGot(input, pos, pos + n)
    ensures |d| == n
  {
    seq<byte>(n, i requires 0 <= i < n => assert At(input, pos + i).Got?; At(input, pos + i).b)
  }

  function Parse(input: seq<Sym>, pos: nat, data: seq<byte>): (r: Read)
    requires |data| == DATASZ
    ensures |r.data| == DATASZ && pos < r.pos
    ensures r.rx.Block? ==> r.rx.len in {128, 1024} && r.rx.data == r.data
    ensures pos >= |input| ==> r.rx.Timeout?
  {
    match At(input, pos)
    case Silence => Read(Timeout, pos + 1, data)
    case Got(m) =>
      if m == EOT then Read(Eot, pos + 1, data)
      else if m == CAN then Read(Can, pos + 1, data)
      else if m != SOH && m != STX then Read(BadMarker, pos + 1, data)
      else ParseBlock(input, pos + 1, if m == SOH then 128 else 1024, data)
  }

  /** The rest of a block behind its marker. */
  function ParseBlock(input: seq<Sym>, pos: nat, len: nat, data: seq<byte>): (r: Read)
    requires |data| == DATASZ && len <= DATASZ
    ensures |r.data| == DATASZ && pos < r.pos
    ensures r.rx.Block? ==> r.rx.len == len && r.rx.data == r.data
  {
    if At(input, pos).Silence? then Read(Timeout, pos + 1, data)
    else if At(input, pos + 1).Silence? then Read(Timeout, pos + 2, data)
    else if (At(input, pos).b + At(input, pos + 1).b) % 256 != 255 then
      var k := Heard(input, pos + 2, len + 2);
      if k < len + 2 then Read(Timeout, pos + 2 + k + 1, data) else Read(BadHeader, pos + 2 + k, data)
    else
      var k := Heard(input, pos + 2, len);
      var got := Bytes(input, pos + 2, k) + data[k..];
      if k < len then Read(Timeout, pos + 2 + k + 1, got)
      else if At(input, pos + 2 + len).Silence? then Read(Timeout, pos + 2 + len + 1, got)
      else if At(input, pos + 3 + len).Silence? then Read(Timeout, pos + 2 + len + 2, got)
      else if Crc(got[..len]) == BitsOf(At(input, pos + 2 + len).b, 8) + BitsOf(At(input, pos + 3 + len).b, 8) then
        Read(Block(At(input, pos).b, len, got), pos + 2 + len + 2, got)
      else Read(BadCrc, pos + 2 + len + 2, got)
  }

  /** The bytes that XMODEM/YMODEM gives these meanings: 4 ends the file, 24 cancels, 1 and 2 start blocks of 128 and
      1024 bytes, and nothing else is a marker. */
  lemma Markers(input: seq<Sym>, pos: nat, data: seq<byte>)
    requires |data| == DATASZ && At(input, pos).Got?
    ensures var b, rx := At(input, pos).b, Parse(input, pos, data).rx;
      && (rx.Eot? <==> b == 4) && (rx.Can? <==> b == 24)
      && (rx.BadMarker? <==> b != 1 && b != 2 && b != 4 && b != 24)
      && (rx.Block? ==> (b == 1 && rx.len == 128) || (b == 2 && rx.len == 1024))
  {
    hide Crc, BitsOf, Heard;
  }

  /** How many bytes are heard is decided by the first silence. */
  lemma {:induction false} HeardIs(input: seq<Sym>, pos: nat, n: nat, k: nat)
    requires k <= n && AllGot(input, pos, pos + k) && (k < n ==> At(input, pos + k).Silence?)
    ensures Heard(input, pos, n) == k
    decreases n
  {
    if k > 0 {
      HeardIs(input, pos + 1, n - 1, k - 1);
    }
  }

  /** packet_read */
  method PacketRead(input: seq<Sym>, pos: nat, buffer: seq<byte>) returns (r: Read)
    requires |buffer| == DATASZ
    ensures r == Parse(input, pos, buffer)
  {
    var marker := At(input, pos);
    if marker.Silence? {
      return Read(Timeout, pos + 1, buffer);
    }
    if marker.b == EOT {
      return Read(Eot, pos + 1, buffer);
    }
    if marker.b == CAN {
      return Read(Can, pos + 1, buffer);
    }
    var length: nat;
    if marker.b == SOH {
      length := 128;
    } else if marker.b == STX {
      length := 1024;
    } else {
      return Read(BadMarker, pos + 1, buffer);
    }
    r := BlockRead(input, pos + 1, length, buffer);
  }

  method BlockRead(input: seq<Sym>, pos: nat, length: nat, buffer: seq<byte>) returns (r: Read)
    requires |buffer| == DATASZ && length <= DATASZ
    ensures r == ParseBlock(input, pos, length, buffer)
  {
    hide Crc, BitsOf, Heard;
    var block := At(input, pos);
    if block.Silence? {
      return Read(Timeout, pos + 1, buffer);
    }
    var inverse := At(input, pos + 1);
    if inverse.Silence? {
      return Read(Timeout, pos + 2, buffer);
    }
    if (block.b + inverse.b) % 256 != 0xff {
      var k := Skip(input, pos + 2, length + 2);
      if k < length + 2 {
        return Read(Timeout, pos + 2 + k + 1, buffer);
      }
      return Read(BadHeader, pos + 2 + length + 2, buffer);
    }
    var k, data := Fill(input, pos + 2, length, buffer);
    if k < length {
      return Read(Timeout, pos + 2 + k + 1, data);
    }
    var hi := At(input, pos + 2 + length);
    if hi.Silence? {
      return Read(Timeout, pos + 2 + length + 1, data);
    }
    var lo := At(input, pos + 3 + length);
    if lo.Silence? {
      return Read(Timeout, pos + 2 + length + 2, data);
    }
    var expected := BitsOf(hi.b, 8) + BitsOf(lo.b, 8);
    var actual := YmodemCrc(data[..length]);
    if actual != expected {
      return Read(BadCrc, pos + 2 + length + 2, data);
    }
    r := Read(Block(block.b, length, data), pos + 2 + length + 2, data);
  }

  /** Reads n bytes away, or up to a silence. */
  method Skip(input: seq<Sym>, pos: nat, n: nat) returns (k: nat)
    ensures k == Heard(input, pos, n)
  {
    for i := 0 to n
      invariant AllGot(input, pos, pos + i)
    {
      if At(input, pos + i).Silence? {
        HeardIs(input, pos, n, i);
        return i;
      }
    }
    HeardIs(input, pos, n, n);
    k := n;
  }

  /** Reads n bytes into the buffer, or up to a silence. */
  method Fill(input: seq<Sym>, pos: nat, n: nat, buffer: seq<byte>) returns (k: nat, data: seq<byte>)
    requires n <= |buffer|
    ensures k == Heard(input, pos, n) && data == Bytes(input, pos, k) + buffer[k..]
  {
    data := buffer;
    for i := 0 to n
      invariant |data| == |buffer| && AllGot(input, pos, pos + i)
      invariant data == Bytes(input, pos, i) + buffer[i..]
    {
      var marker := At(input, pos + i);
      if marker.Silence? {
        HeardIs(input, pos, n, i);
        return i, data;
      }
      data := data[i := marker.b];
    }
    HeardIs(input, pos, n, n);
    k := n;
  }

  // ---------- what a sender puts on the line ----------

  function Line(b: seq<byte>): seq<Sym> { seq(|b|, i requires 0 <= i < |b| => Got(b[i])) }

  /** A block on the line: marker, number, its complement, payload, CRC. */
  function Frame(num: byte, payload: seq<byte>, hi: byte, lo: byte): seq<Sym>
    requires |payload| in {128, 1024}
  {
    FrameWith(num, 255 - num, payload, hi, lo)
  }

  /** The same with any byte for the complement. */
  function FrameWith(num: byte, inverse: byte, payload: seq<byte>, hi: byte, lo: byte): seq<Sym>
    requires |payload| in {128, 1024}
  {
    Line([if |payload| == 128 then SOH else STX, num, inverse] + payload + [hi, lo])
  }

  /** A frame stands on the line at pos. */
  predicate Stands(input: seq<Sym>, pos: nat, f: seq<Sym>)
  {
    pos + |f| <= |input| && input[pos..pos + |f|] == f
  }

  lemma FrameHeard(input: seq<Sym>, pos: nat, num: byte, inverse: byte, payload: seq<byte>, hi: byte, lo: byte)
    requires |payload| in {128, 1024} && Stands(input, pos, FrameWith(num, inverse, payload, hi, lo))
    ensures At(input, pos) == Got(if |payload| == 128 then SOH else STX)
    ensures At(input, pos + 1) == Got(num) && At(input, pos + 2) == Got(inverse)
    ensures Heard(input, pos + 3, |payload|) == |payload| && Bytes(input, pos + 3, |payload|) == payload
    ensures At(input, pos + 3 + |payload|) == Got(hi) && At(input, pos + 4 + |payload|) == Got(lo)
    ensures Heard(input, pos + 3, |payload| + 2) == |payload| + 2
  {
    hide Heard;
    var f := FrameWith(num, inverse, payload, hi, lo);
    forall i | pos <= i < pos + |f| ensures At(input, i) == f[i - pos] {
      assert input[pos..pos + |f|][i - pos] == f[i - pos];
    }
    HeardIs(input, pos + 3, |payload|, |payload|);
    HeardIs(input, pos + 3, |payload| + 2, |payload| + 2);
  }

  /** A frame with the payload's own CRC is read as that block. */
  lemma FrameRead(input: seq<Sym>, pos: nat, num: byte, payload: seq<byte>, hi: byte, lo: byte, data: seq<byte>)
    requires |data| == DATASZ && |payload| in {128, 1024} && Stands(input, pos, Frame(num, payload, hi, lo))
    requires Crc(payload) == BitsOf(hi, 8) + BitsOf(lo, 8)
    ensures var d := payload + data[|payload|..];
      Parse(input, pos, data) == Read(Block(num, |payload|, d), pos + |payload| + 5, d)
  {
    hide Crc, Heard, BitsOf, FrameWith;
    FrameHeard(input, pos, num, 255 - num, payload, hi, lo);
    assert (payload + data[|payload|..])[..|payload|] == payload;
  }

  lemma FrameRefused(input: seq<Sym>, pos: nat, num: byte, payload: seq<byte>, hi: byte, lo: byte, data: seq<byte>)
    requires |data| == DATASZ && |payload| in {128, 1024} && Stands(input, pos, Frame(num, payload, hi, lo))
    requires Crc(payload) != BitsOf(hi, 8) + BitsOf(lo, 8)
    ensures Parse(input, pos, data).rx == BadCrc && Parse(input, pos, data).pos == pos + |payload| + 5
  {
    hide Crc, Heard, BitsOf, FrameWith;
    FrameHeard(input, pos, num, 255 - num, payload, hi, lo);
    assert (payload + data[|payload|..])[..|payload|] == payload;
  }

  /** A frame with any other byte in place of the complement is read to its end and rejected for its header,
      whatever its payload and CRC are. */
  lemma HeaderRefused(input: seq<Sym>, pos: nat, num: byte, inverse: byte, payload: seq<byte>, hi: byte, lo: byte, data: seq<byte>)
    requires |data| == DATASZ && |payload| in {128, 1024} && Stands(input, pos, FrameWith(num, inverse, payload, hi, lo))
    requires inverse != 255 - num
    ensures Parse(input, pos, data) == Read(BadHeader, pos + |payload| + 5, data)
  {
    hide Crc, Heard, BitsOf, FrameWith;
    FrameHeard(input, pos, num, inverse, payload, hi, lo);
  }

  /** A frame whose payload was changed inside two adjacent bytes on the way is rejected for its CRC. */
  lemma BurstRejected(input: seq<Sym>, pos: nat, num: byte, p: seq<byte>, a: byte, b: byte, a': byte, b': byte,
                      rest: seq<byte>, hi: byte, lo: byte, data: seq<byte>)
    requires |data| == DATASZ && |p| + 2 + |rest| in {128, 1024} && (a, b) != (a', b')
    requires Crc(p + [a, b] + rest) == BitsOf(hi, 8) + BitsOf(lo, 8)
    requires Stands(input, pos, Frame(num, p + [a', b'] + rest, hi, lo))
    ensures Parse(input, pos, data).rx == BadCrc && Parse(input, pos, data).pos == pos + |p| + 2 + |rest| + 5
  {
    hide Crc, BitsOf, Parse, Stands, Frame;
    BurstFound(p, a, b, a', b', rest);
    FrameRefused(input, pos, num, p + [a', b'] + rest, hi, lo, data);
  }
}

/** The receiver: metadata, numbered blocks, end of file, trailer. */
module Ymodem {
  import opened Wrappers
  import opened Crc16
  import opened YmodemPacket

  const NAMESZ: nat := 64
  const DIRSIZ: nat := 14
  const U32: nat := 0x1_0000_0000

  datatype Reply = Ack | Nak | Cancel | CrcRequest

  // ---------- metadata ----------

  /** strlen over the packet buffer. */
  function StrLen(data: seq<byte>, i: nat): (n: nat)
    requires i <= |data|
    ensures i + n <= |data|
    ensures i + n < |data| ==> data[i + n] == 0
    ensures forall j :: i <= j < i + n ==> data[j] != 0
    decreases |data| - i
  {
    if i == |data| || data[i] == 0 then 0 else 1 + StrLen(data, i + 1)
  }

  predicate Digit(b: byte) { 0x30 <= b <= 0x39 }

  /** parse_decimal: an unsigned 32-bit value that wraps around. */
  function Decimal(data: seq<byte>, i: nat, acc: nat): (v: nat)
    requires i <= |data|
    ensures acc < U32 ==> v < U32
    decreases |data| - i
  {
    if i < |data| && Digit(data[i]) then Decimal(data, i + 1, (acc * 10 + (data[i] - 0x30)) % U32) else acc
  }

  method ParseDecimal(data: seq<byte>, at: nat) returns (value: nat)
    requires at <= |data|
    ensures value == Decimal(data, at, 0)
  {
    value := 0;
    var i := at;
    while i < |data| && Digit(data[i])
      invariant at <= i <= |data| && value < U32
      invariant Decimal(data, at, 0) == Decimal(data, i, value)
    {
      value := (value * 10 + (data[i] - 0x30)) % U32;
      i := i + 1;
    }
  }

  datatype Meta = Meta(name: seq<byte>, size: nat)

  /** metadata_parse */
  function MetaParse(data: seq<byte>, len: nat): (m: Option<Meta>)
    requires len <= |data| && 0 < |data|
    ensures m.Some? ==> m.value.size < U32 && 0 < |m.value.name| < NAMESZ && 0 !in m.value.name
  {
    var n := StrLen(data, 0);
    if data[0] == 0 || n + 1 > NAMESZ || n + 1 >= len then None
    else Some(Meta(data[..n], Decimal(data, n + 1, 0)))
  }

  /** Metadata is understood exactly when a name of 1 to 63 bytes ends with a zero byte before the last byte of the
      packet. */
  lemma MetaUnderstood(data: seq<byte>, len: nat)
    requires len <= |data| && 0 < |data|
    ensures MetaParse(data, len).Some? <==>
      exists n :: 0 < n < NAMESZ && n + 1 < len && data[n] == 0 && forall j :: 0 <= j < n ==> data[j] != 0
  {
    var k := StrLen(data, 0);
    if n :| 0 < n < NAMESZ && n + 1 < len && data[n] == 0 && forall j :: 0 <= j < n ==> data[j] != 0 {
      assert k == n;
    }
    if MetaParse(data, len).Some? {
      assert data[k] == 0 && forall j :: 0 <= j < k ==> data[j] != 0;
    }
  }

  /** invalid_filename */
  predicate InvalidName(name: seq<byte>)
  {
    name == [] || |name| > DIRSIZ || exists i :: 0 <= i < |name| && name[i] in {0x2f, 0x28, 0x29}
  }

  // ---------- one packet at a time ----------

  /** Where the file goes: into a buffer of bufsz bytes, or to the file system, which may refuse the file
      and accepts room bytes of it; wanted is the base name of the request, if there is one. */
  datatype Target =
    | Buffer(bufsz: nat, wanted: Option<seq<byte>>)
    | File(fileOk: bool, room: nat, wanted: Option<seq<byte>>)

  /** The receiver's variables, the memory behind the buffer's address, the bytes written to the file and
      the replies sent. */
  datatype State = State(seen: bool, trailer: bool, expected: nat, size: nat, remaining: nat, offset: nat,
                         mem: map<nat, byte>, written: seq<byte>, replies: seq<Reply>)

  const START := State(false, false, 1, 0, 0, 0, map[], [], [CrcRequest])

  datatype Next = Go(st: State) | Done(rc: int, st: State)

  function Say(st: State, r: seq<Reply>): State { st.(replies := st.replies + r) }

  function Fail(st: State): Next { Done(-1, Say(st, [Cancel])) }

  /** memcpy to the buffer. */
  function Copy(mem: map<nat, byte>, offset: nat, d: seq<byte>): (m: map<nat, byte>)
    ensures forall i :: i in m <==> i in mem || offset <= i < offset + |d|
    ensures forall i :: offset <= i < offset + |d| ==> m[i] == d[i - offset]
    ensures forall i :: i in mem && !(offset <= i < offset + |d|) ==> m[i] == mem[i]
  {
    if d == [] then mem else Copy(mem, offset, d[..|d| - 1])[offset + |d| - 1 := d[|d| - 1]]
  }

  /** The size check of the buffer, in unsigned 32-bit arithmetic. */
  predicate TooLarge(size: nat, bufsz: nat) { (size + 1) % U32 > bufsz }

  /** Metadata is accepted for the target. */
  predicate Accepts(t: Target, m: Meta)
  {
    && (t.wanted.Some? ==> m.name == t.wanted.value)
    && (t.File? && t.wanted.None? ==> !InvalidName(m.name))
    && (if t.Buffer? then !TooLarge(m.size, t.bufsz) else t.fileOk)
  }

  /** A file that is sent unasked is taken under every name that fits a directory entry and has neither a slash nor
      a parenthesis; an asked-for one under the name asked for only. */
  lemma AcceptedNames(room: nat, m: Meta, wanted: seq<byte>)
    ensures Accepts(File(true, room, None), m) <==>
      1 <= |m.name| <= 14 && ('/' as int) !in m.name && ('(' as int) !in m.name && (')' as int) !in m.name
    ensures Accepts(File(true, room, Some(wanted)), m) <==> m.name == wanted
    ensures !Accepts(File(false, room, Some(wanted)), m) && !Accepts(File(false, room, None), m)
    ensures Accepts(Buffer(room, None), m) <==> !TooLarge(m.size, room)
    ensures Accepts(Buffer(room, Some(wanted)), m) <==> m.name == wanted && !TooLarge(m.size, room)
  {
    assert ('/' as int) == 0x2f && ('(' as int) == 0x28 && (')' as int) == 0x29;
  }

  function Min(a: nat, b: nat): nat { if a < b then a else b }

  /** The receive loop on one packet. */
  function Handle(t: Target, st: State, rx: Rx): Next
    requires rx.Block? ==> rx.len <= |rx.data| && 0 < |rx.data|
  {
    if st.trailer then
      if !rx.Block? || rx.num != 0 || rx.data[0] != 0 || st.remaining != 0 then Fail(st)
      else Done(0, Say(if t.Buffer? then st.(mem := st.mem[st.offset := 0]) else st, [Ack]))
    else
      match rx
      case Eot => if !st.seen then Fail(st) else Go(Say(st.(trailer := true), [Ack, CrcRequest]))
      case Can => Done(-1, st)
      case BadMarker => Go(Say(st, [Nak]))
      case BadHeader => Go(Say(st, [Nak]))
      case BadCrc => Go(Say(st, [Nak]))
      case Timeout => Fail(st)
      case Block(num, len, data) => if st.seen then HandleData(t, st, num, data[..len]) else HandleMeta(t, st, num, len, data)
  }

  function HandleMeta(t: Target, st: State, num: byte, len: nat, data: seq<byte>): Next
    requires len <= |data| && 0 < |data|
  {
    var m := MetaParse(data, len);
    if num != 0 || m.None? || !Accepts(t, m.value) then Fail(st)
    else Go(Say(st.(seen := true, expected := 1, size := m.value.size, remaining := m.value.size), [Ack, CrcRequest]))
  }

  function HandleData(t: Target, st: State, num: byte, payload: seq<byte>): Next
  {
    if num == (st.expected - 1) % 256 then Go(Say(st, [Ack]))
    else if num != st.expected % 256 || st.remaining == 0 then Fail(st)
    else
      var chunk := payload[..Min(|payload|, st.remaining)];
      var rest := st.remaining - |chunk|;
      if t.Buffer? then
        Go(Say(st.(mem := Copy(st.mem, st.offset, chunk), offset := st.offset + |chunk|,
                   remaining := rest, expected := st.expected + 1), [Ack]))
      else if |st.written| + |chunk| > t.room then
        Fail(st.(written := st.written + chunk[..if t.room < |st.written| then 0 else t.room - |st.written|]))
      else Go(Say(st.(written := st.written + chunk, remaining := rest, expected := st.expected + 1), [Ack]))
  }

  /** A block comes with a buffer that holds its payload. */
  predicate Packet(rx: Rx) { rx.Block? ==> rx.len <= |rx.data| && 0 < |rx.data| }

  /** The loop over a sequence of packets. */
  function Run(t: Target, st: State, ps: seq<Rx>): (n: Next)
    requires forall i :: 0 <= i < |ps| ==> Packet(ps[i])
    decreases |ps|
  {
    if ps == [] then Go(st)
    else
      assert Packet(ps[0]);
      var n := Handle(t, st, ps[0]);
      if n.Done? then n else Run(t, n.st, ps[1..])
  }

  // ---------- what is answered ----------

  /** The replies that one packet brings. */
  function Said(st: State, n: Next): seq<Reply>
  {
    if |st.replies| <= |n.st.replies| then n.st.replies[|st.replies|..] else []
  }

  /** Nothing but a damaged packet. */
  predicate Damage(rx: Rx) { rx.BadMarker? || rx.BadHeader? || rx.BadCrc? }

  /** ACK is the whole answer exactly when a block was taken in, or is the one taken in last, or the trailer ends
      the transfer; NAK exactly when the packet was damaged, and then nothing else happens; CAN exactly when
      the receiver gives up, but for a cancelling sender, who gets no answer; ACK and C exactly for metadata that
      is accepted and for the end of the file. */
  lemma Answered(t: Target, st: State, rx: Rx)
    requires Packet(rx)
    ensures var n := Handle(t, st, rx);
      && st.replies <= n.st.replies
      && (Said(st, n) == [Ack] <==>
            || (n.Done? && n.rc == 0)
            || (rx.Block? && st.seen && !st.trailer && n.Go?
                && (n.st.expected == st.expected + 1 || rx.num == (st.expected - 1) % 256)))
      && (Said(st, n) == [Nak] <==> Damage(rx) && !st.trailer)
      && (Said(st, n) == [Nak] ==> n.Go? && n.st == st.(replies := st.replies + [Nak]))
      && (Said(st, n) == [Cancel] <==> n.Done? && n.rc != 0 && (rx.Can? ==> st.trailer))
      && (Said(st, n) == [Ack, CrcRequest] <==> n.Go? && !st.trailer && (rx.Eot? || (rx.Block? && !st.seen)))
      && (Said(st, n) == [] <==> rx.Can? && !st.trailer)
  {
    hide MetaParse, Accepts, Copy;
    var n := Handle(t, st, rx);
    if Said(st, n) != [] {
      assert st.replies + Said(st, n) == n.st.replies;
    }
  }

  // ---------- any packets at all ----------

  /** What has arrived so far. */
  function Delivered(t: Target, st: State): seq<byte>
  {
    if t.Buffer? then seq<byte>(st.offset, i requires 0 <= i => if i in st.mem then st.mem[i] else 0) else st.written
  }

  /** What holds between two packets: the file is split into what has arrived and what remains, and the
      buffer's memory is written exactly as far as it has arrived. */
  ghost predicate Inv(t: Target, st: State)
  {
    && st.expected >= 1 && st.remaining <= st.size < U32
    && (st.trailer ==> st.seen)
    && |Delivered(t, st)| + st.remaining == st.size
    && (t.File? ==> st.mem == map[] && st.offset == 0 && |st.written| <= t.room)
    && (t.Buffer? ==> st.written == [] && (forall i :: i in st.mem <==> 0 <= i < st.offset))
    && (t.Buffer? && st.seen ==> !TooLarge(st.size, t.bufsz))
    && (!st.seen ==> st.size == 0)
  }

  /** What holds of whatever state the receiver stops in: the same split, and every byte written to memory
      inside the buffer, unless the announced size is the one that wraps the size check. */
  ghost predicate Safe(t: Target, st: State)
  {
    && (t.Buffer? ==> st.offset + st.remaining == st.size)
    && (t.Buffer? && st.size != U32 - 1 ==> forall i :: i in st.mem ==> i < t.bufsz)
    && (t.File? ==> st.mem == map[] && |st.written| <= t.room)
  }

  lemma HandleKeeps(t: Target, st: State, rx: Rx)
    requires Packet(rx) && Inv(t, st) && (t.Buffer? ==> 0 < t.bufsz)
    ensures var n := Handle(t, st, rx);
      && Safe(t, n.st)
      && (n.Go? ==> Inv(t, n.st))
      && (n.Done? && n.rc == 0 ==> n.st.seen && n.st.remaining == 0 && |Delivered(t, n.st)| == n.st.size)
      && (n.Done? && n.rc == 0 && t.Buffer? ==> n.st.mem.Keys >= {n.st.size} && n.st.mem[n.st.size] == 0)
  {
    SizeFits(t, st);
    if !st.trailer && rx.Block? {
      hide Inv, Safe, HandleData, HandleMeta, Delivered;
      if st.seen {
        DataKeeps(t, st, rx.num, rx.data[..rx.len]);
      } else {
        MetaKeeps(t, st, rx);
      }
    }
  }

  lemma SizeFits(t: Target, st: State)
    requires Inv(t, st)
    ensures t.Buffer? && st.seen && st.size != U32 - 1 ==> st.size + 1 <= t.bufsz
  {
    if st.size != U32 - 1 {
      assert (st.size + 1) % U32 == st.size + 1;
    }
  }

  lemma DataKeeps(t: Target, st: State, num: byte, payload: seq<byte>)
    requires Inv(t, st) && st.seen
    ensures var n := HandleData(t, st, num, payload);
      Safe(t, n.st) && (n.Go? ==> Inv(t, n.st)) && (n.Done? ==> n.rc != 0)
  {
    SizeFits(t, st);
  }

  lemma MetaKeeps(t: Target, st: State, rx: Rx)
    requires Inv(t, st) && !st.seen && rx.Block? && Packet(rx)
    ensures var n := HandleMeta(t, st, rx.num, rx.len, rx.data);
      Safe(t, n.st) && (n.Go? ==> Inv(t, n.st)) && (n.Done? ==> n.rc != 0)
  {
    hide MetaParse;
  }

  /** For every sequence of packets whatsoever. */
  lemma {:induction false} RunSafe(t: Target, st: State, ps: seq<Rx>)
    requires (forall i :: 0 <= i < |ps| ==> Packet(ps[i])) && Inv(t, st) && (t.Buffer? ==> 0 < t.bufsz)
    ensures var n := Run(t, st, ps);
      && Safe(t, n.st)
      && (n.Done? && n.rc == 0 ==> n.st.remaining == 0 && |Delivered(t, n.st)| == n.st.size)
    decreases |ps|
  {
    if ps == [] {
      if t.Buffer? && st.seen && st.size != U32 - 1 {
        assert (st.size + 1) % U32 == st.size + 1;
      }
    } else {
      assert Packet(ps[0]);
      hide Inv, Safe, Handle, Delivered;
      HandleKeeps(t, st, ps[0]);
      var n := Handle(t, st, ps[0]);
      if n.Go? {
        RunSafe(t, n.st, ps[1..]);
      }
    }
  }

  /** The check admits a size that the buffer and its final zero byte cannot hold exactly when adding one
      wraps around. */
  lemma CheckWraps(size: nat, bufsz: nat)
    requires size < U32 && 0 < bufsz < 0x8000_0000
    ensures !TooLarge(size, bufsz) <==> size + 1 <= bufsz || size == U32 - 1
  {
  }

  // ---------- a stop-and-wait sender ----------

  function Flat(blocks: seq<seq<byte>>): seq<byte>
  {
    if blocks == [] then [] else Flat(blocks[..|blocks| - 1]) + blocks[|blocks| - 1]
  }

  lemma {:induction false} FlatPrefix(blocks: seq<seq<byte>>, k: nat)
    requires k <= |blocks|
    ensures Flat(blocks[..k]) <= Flat(blocks)
    decreases |blocks|
  {
    if k == |blocks| {
      assert blocks[..k] == blocks;
    } else {
      assert blocks[..|blocks| - 1][..k] == blocks[..k];
      FlatPrefix(blocks[..|blocks| - 1], k);
    }
  }

  /** A file as a sender sends it: the last block may be padded. */
  datatype Sent = Sent(name: seq<byte>, content: seq<byte>, blocks: seq<seq<byte>>)

  predicate Sendable(f: Sent)
  {
    |f.content| < U32 && f.content <= Flat(f.blocks)
  }

  /** The packet is block j of the transfer: the metadata, or a data block under its number modulo 256. */
  predicate Carries(f: Sent, rx: Rx, j: nat)
  {
    && rx.Block? && Packet(rx)
    && if j == 0 then rx.num == 0 && MetaParse(rx.data, rx.len) == Some(Meta(f.name, |f.content|))
       else j <= |f.blocks| && rx.num == j % 256 && rx.data[..rx.len] == f.blocks[j - 1]
  }

  /** Packets as they can arrive from a sender that repeats a block until it is acknowledged: after block k
      (-1: none yet) comes that block again or the next one, with any number of damaged packets, time-outs
      and cancels between; what follows an end of file is free. */
  predicate Follows(f: Sent, ps: seq<Rx>, k: int)
    requires k >= -1
    decreases |ps|
  {
    ps == [] || ps[0].Eot?
    || (if ps[0].Block? then
          (k >= 0 && Carries(f, ps[0], k) && Follows(f, ps[1..], k)) || (Carries(f, ps[0], k + 1) && Follows(f, ps[1..], k + 1))
        else Follows(f, ps[1..], k))
  }

  /** How much of the file blocks 1 to k bring. */
  function Reach(f: Sent, k: int): nat
    requires k <= |f.blocks|
  {
    if k <= 0 then 0 else Min(|f.content|, |Flat(f.blocks[..k])|)
  }

  /** The receiver has taken in block k last. */
  ghost predicate Has(f: Sent, t: Target, st: State, k: int)
  {
    && -1 <= k <= |f.blocks| && !st.trailer
    && (k == -1 <==> !st.seen)
    && (k >= 0 ==> st.expected == k + 1 && st.size == |f.content|)
    && Delivered(t, st) == f.content[..Reach(f, k)]
    && (k >= 0 ==> st.remaining == |f.content| - Reach(f, k))
    && (t.Buffer? ==> forall i :: i in st.mem <==> 0 <= i < st.offset)
  }

  /** The next block's payload is the next piece of the file. */
  lemma NextPiece(f: Sent, k: nat)
    requires Sendable(f) && k < |f.blocks| && Reach(f, k) < |f.content|
    ensures var b := f.blocks[k];
      var c := Min(|b|, |f.content| - Reach(f, k));
      && Reach(f, k + 1) == Reach(f, k) + c
      && f.content[..Reach(f, k + 1)] == f.content[..Reach(f, k)] + b[..c]
  {
    var b, p := f.blocks[k], f.blocks[..k + 1];
    assert p[..k] == f.blocks[..k] && p[k] == b;
    assert Flat(p) == Flat(f.blocks[..k]) + b;
    assert k == 0 ==> f.blocks[..k] == [] && Flat(f.blocks[..k]) == [];
    FlatPrefix(f.blocks, k + 1);
    var r, c := Reach(f, k), Min(|b|, |f.content| - Reach(f, k));
    assert r == |Flat(f.blocks[..k])|;
    forall i | 0 <= i < c ensures f.content[r + i] == b[i] {
      assert f.content[r + i] == Flat(f.blocks)[r + i] == Flat(p)[r + i];
    }
    assert f.content[..r + c] == f.content[..r] + b[..c];
  }

  lemma DeliveredCopy(t: Target, st: State, d: seq<byte>, z: State)
    requires t.Buffer? && forall i :: i in st.mem <==> 0 <= i < st.offset
    requires z.mem == Copy(st.mem, st.offset, d) && z.offset == st.offset + |d|
    ensures Delivered(t, z) == Delivered(t, st) + d
    ensures forall i :: i in z.mem <==> 0 <= i < z.offset
  {
    forall i | 0 <= i < z.offset ensures Delivered(t, z)[i] == (Delivered(t, st) + d)[i] {
      assert i in z.mem;
    }
  }

  /** A data block: the one taken in last again, or the next one. */
  lemma DataStep(f: Sent, t: Target, st: State, k: nat, rx: Rx, j: nat)
    requires Sendable(f) && Has(f, t, st, k) && Carries(f, rx, j) && (j == k || j == k + 1)
    requires t.File? ==> |st.written| <= t.room
    ensures var n := HandleData(t, st, rx.num, rx.data[..rx.len]);
      && Delivered(t, n.st) <= f.content
      && (n.Go? ==> Has(f, t, n.st, j) && (t.File? ==> |n.st.written| <= t.room))
      && (n.Done? ==> n.rc != 0)
  {
    hide MetaParse, Flat, Copy, Has, HandleData, Delivered, Sendable, Carries, Reach;
    CarriesIs(f, rx, j);
    if j == k {
      DataAgain(f, t, st, k, rx.data[..rx.len]);
    } else if st.remaining > 0 {
      NextData(f, t, st, k);
    } else {
      DataBeyond(f, t, st, k, rx.data[..rx.len]);
    }
  }

  lemma CarriesIs(f: Sent, rx: Rx, j: nat)
    requires Carries(f, rx, j)
    ensures rx.Block? && Packet(rx) && rx.num == j % 256
    ensures j > 0 ==> j <= |f.blocks| && rx.data[..rx.len] == f.blocks[j - 1]
  {
    hide MetaParse;
  }

  /** A block that was taken in before is acknowledged again. */
  lemma DataAgain(f: Sent, t: Target, st: State, k: nat, payload: seq<byte>)
    requires Has(f, t, st, k)
    ensures var n := HandleData(t, st, k % 256, payload);
      n.Go? && Has(f, t, n.st, k) && n.st.written == st.written && Delivered(t, n.st) <= f.content
      && n.st.replies == st.replies + [Ack]
  {
    hide Flat, Copy, Reach;
    var n := HandleData(t, st, k % 256, payload);
    assert Delivered(t, n.st) == Delivered(t, st);
  }

  /** A block behind the end of the file is refused. */
  lemma DataBeyond(f: Sent, t: Target, st: State, k: nat, payload: seq<byte>)
    requires Has(f, t, st, k) && st.remaining == 0
    ensures var n := HandleData(t, st, (k + 1) % 256, payload);
      n.Done? && n.rc != 0 && Delivered(t, n.st) <= f.content
  {
    hide Flat, Copy, Reach;
    assert (k + 1) % 256 != k % 256;
    var n := HandleData(t, st, (k + 1) % 256, payload);
    assert Delivered(t, n.st) == Delivered(t, st);
  }

  lemma NextData(f: Sent, t: Target, st: State, k: nat)
    requires Sendable(f) && Has(f, t, st, k) && k < |f.blocks| && st.remaining > 0
    requires t.File? ==> |st.written| <= t.room
    ensures var n := HandleData(t, st, (k + 1) % 256, f.blocks[k]);
      && Delivered(t, n.st) <= f.content
      && (n.Go? ==> Has(f, t, n.st, k + 1) && (t.File? ==> |n.st.written| <= t.room))
      && (n.Done? ==> n.rc != 0)
  {
    hide MetaParse, Flat, Copy, Reach, Has, HandleData, Delivered;
    if t.Buffer? {
      NextToBuffer(f, t, st, k);
    } else {
      NextToFile(f, t, st, k);
    }
  }

  lemma NextToBuffer(f: Sent, t: Target, st: State, k: nat)
    requires Sendable(f) && Has(f, t, st, k) && k < |f.blocks| && st.remaining > 0 && t.Buffer?
    ensures var n := HandleData(t, st, (k + 1) % 256, f.blocks[k]);
      n.Go? && Has(f, t, n.st, k + 1) && Delivered(t, n.st) <= f.content
  {
    hide MetaParse, Flat, Copy, Reach;
    var b := f.blocks[k];
    var chunk := b[..Min(|b|, st.remaining)];
    ReachBound(f, k);
    NextPiece(f, k);
    assert f.content[..Reach(f, k + 1)] == Delivered(t, st) + chunk;
    DeliveredCopy(t, st, chunk, HandleData(t, st, (k + 1) % 256, b).st);
  }

  lemma NextToFile(f: Sent, t: Target, st: State, k: nat)
    requires Sendable(f) && Has(f, t, st, k) && k < |f.blocks| && st.remaining > 0 && t.File? && |st.written| <= t.room
    ensures var n := HandleData(t, st, (k + 1) % 256, f.blocks[k]);
      && Delivered(t, n.st) <= f.content
      && if n.Go? then Has(f, t, n.st, k + 1) && |n.st.written| <= t.room else n.rc != 0
  {
    hide MetaParse, Flat, Copy, Reach;
    var b := f.blocks[k];
    var chunk := b[..Min(|b|, st.remaining)];
    ReachBound(f, k);
    NextPiece(f, k);
    assert f.content[..Reach(f, k + 1)] == st.written + chunk;
    if |st.written| + |chunk| > t.room {
      var part := chunk[..t.room - |st.written|];
      assert st.written + part <= st.written + chunk;
    }
  }

  lemma ReachBound(f: Sent, k: nat)
    requires k <= |f.blocks|
    ensures Reach(f, k) <= |f.content| && (k + 1 <= |f.blocks| ==> Reach(f, k + 1) <= |f.content|)
  {
  }

  lemma MetaStep(f: Sent, t: Target, st: State, rx: Rx)
    requires Has(f, t, st, -1) && Carries(f, rx, 0)
    ensures var n := HandleMeta(t, st, rx.num, rx.len, rx.data);
      && Delivered(t, n.st) <= f.content
      && (n.Go? ==> Has(f, t, n.st, 0) && n.st.written == st.written)
      && (n.Done? ==> n.rc != 0)
  {
    assert Delivered(t, st) == [];
    var n := HandleMeta(t, st, rx.num, rx.len, rx.data);
    assert Delivered(t, n.st) == Delivered(t, st);
  }

  /** Whatever a stop-and-wait sender's packets go through on the way, what has arrived is always the
      beginning of the file, and success means the whole file. */
  lemma {:induction false} StopAndWait(f: Sent, t: Target, st: State, ps: seq<Rx>, k: int)
    requires Sendable(f) && Has(f, t, st, k) && Follows(f, ps, k)
    requires (forall i :: 0 <= i < |ps| ==> Packet(ps[i])) && (t.File? ==> |st.written| <= t.room)
    ensures var n := Run(t, st, ps);
      && Delivered(t, n.st) <= f.content
      && (n.Done? && n.rc == 0 ==> Delivered(t, n.st) == f.content)
    decreases |ps|
  {
    if ps != [] {
      var rx := ps[0];
      assert Packet(rx);
      if rx.Eot? {
        EotEnds(f, t, st, ps, k);
      } else if rx.Block? {
        hide Has, Delivered, Carries, HandleData, HandleMeta;
        var j := if k >= 0 && Carries(f, rx, k) && Follows(f, ps[1..], k) then k else k + 1;
        if k == -1 {
          MetaFirst(f, t, st);
          MetaStep(f, t, st, rx);
        } else {
          MetaFirst(f, t, st);
          DataStep(f, t, st, k, rx, j);
        }
        var n := Handle(t, st, rx);
        if n.Go? {
          StopAndWait(f, t, n.st, ps[1..], j);
        }
      } else {
        var n := Handle(t, st, rx);
        assert Delivered(t, n.st) == Delivered(t, st);
        if n.Go? {
          StopAndWait(f, t, n.st, ps[1..], k);
        }
      }
    }
  }

  lemma MetaFirst(f: Sent, t: Target, st: State)
    ensures forall k :: Has(f, t, st, k) ==> !st.trailer && (st.seen <==> k != -1)
  {
  }

  lemma EotEnds(f: Sent, t: Target, st: State, ps: seq<Rx>, k: int)
    requires Has(f, t, st, k) && ps != [] && ps[0].Eot?
    requires forall i :: 0 <= i < |ps| ==> Packet(ps[i])
    ensures var n := Run(t, st, ps);
      && Delivered(t, n.st) <= f.content
      && (n.Done? && n.rc == 0 ==> Delivered(t, n.st) == f.content)
  {
    assert Packet(ps[0]);
    var n := Handle(t, st, ps[0]);
    assert Delivered(t, n.st) == Delivered(t, st);
    if n.Go? && |ps| > 1 {
      assert Packet(ps[1]) && ps[1..][0] == ps[1];
      var m := Handle(t, n.st, ps[1]);
      assert m.Done?;
      assert Delivered(t, m.st) == Delivered(t, st);
    }
  }

  // ---------- a transfer without faults ----------

  predicate Trailer(rx: Rx) { rx.Block? && Packet(rx) && rx.num == 0 && rx.data[0] == 0 }

  lemma {:induction false} CleanFrom(f: Sent, t: Target, st: State, ps: seq<Rx>, k: nat, trailer: Rx)
    requires Sendable(f) && Has(f, t, st, k) && Trailer(trailer) && |ps| == |f.blocks| - k
    requires forall j :: 0 <= j < |ps| ==> Carries(f, ps[j], k + j + 1)
    requires f.blocks != [] ==> |Flat(f.blocks[..|f.blocks| - 1])| < |f.content|
    requires t.File? ==> |f.content| <= t.room
    ensures forall i :: 0 <= i < |ps + [Eot, trailer]| ==> Packet((ps + [Eot, trailer])[i])
    ensures var n := Run(t, st, ps + [Eot, trailer]);
      n.Done? && n.rc == 0 && Delivered(t, n.st) == f.content
      && n.st.replies == st.replies + Acks(|ps|) + [Ack, CrcRequest, Ack]
    decreases |ps|
  {
    hide Carries, MetaParse, Flat, Copy, Has, Handle, Delivered, Sendable, Reach;
    var all := ps + [Eot, trailer];
    CarriedPackets(f, ps, k, trailer);
    if ps == [] {
      assert f.blocks[..k] == f.blocks;
      CleanEnd(f, t, st, trailer);
      assert all == [Eot, trailer];
      assert st.replies + Acks(0) == st.replies;
    } else {
      assert Carries(f, ps[0], k + 0 + 1);
      MoreToCome(f, t, st, k);
      assert all[0] == ps[0] && Packet(all[0]);
      CleanStep(f, t, st, k, ps[0]);
      var n := Handle(t, st, ps[0]);
      assert all[1..] == ps[1..] + [Eot, trailer];
      forall j | 0 <= j < |ps[1..]| ensures Carries(f, ps[1..][j], k + 1 + j + 1) {
        assert Carries(f, ps[j + 1], k + (j + 1) + 1);
      }
      CleanFrom(f, t, n.st, ps[1..], k + 1, trailer);
      assert Acks(|ps|) == [Ack] + Acks(|ps[1..]|);
      assert st.replies + Acks(|ps|) == n.st.replies + Acks(|ps[1..]|);
    }
  }

  function Acks(n: nat): seq<Reply> { seq(n, _ => Ack) }

  lemma MoreToCome(f: Sent, t: Target, st: State, k: nat)
    requires Sendable(f) && Has(f, t, st, k) && k < |f.blocks| && |Flat(f.blocks[..|f.blocks| - 1])| < |f.content|
    ensures st.remaining > 0
  {
    hide Flat, MetaParse, Copy;
    FlatMonotone(f.blocks, k, |f.blocks| - 1);
  }

  /** The end of a transfer: all blocks have come. */
  lemma CleanEnd(f: Sent, t: Target, st: State, trailer: Rx)
    requires Sendable(f) && Has(f, t, st, |f.blocks|) && Trailer(trailer)
    ensures var n := Run(t, st, [Eot, trailer]);
      n.Done? && n.rc == 0 && Delivered(t, n.st) == f.content && n.st.replies == st.replies + [Ack, CrcRequest, Ack]
  {
    hide MetaParse, Flat, Copy;
    assert f.blocks[..|f.blocks|] == f.blocks;
    assert f.blocks == [] ==> Flat(f.blocks) == [] by { FlatNone(); }
    assert Reach(f, |f.blocks|) == |f.content|;
    var n := Handle(t, st, Eot);
    assert [Eot, trailer][1..] == [trailer] && [trailer][0] == trailer;
    assert Handle(t, n.st, trailer).Done?;
    assert Delivered(t, Handle(t, n.st, trailer).st) == Delivered(t, st);
  }

  lemma FlatNone()
    ensures Flat([]) == []
  {
  }

  lemma FlatMonotone(blocks: seq<seq<byte>>, j: nat, k: nat)
    requires j <= k <= |blocks|
    ensures |Flat(blocks[..j])| <= |Flat(blocks[..k])|
  {
    assert blocks[..k][..j] == blocks[..j];
    FlatPrefix(blocks[..k], j);
  }

  lemma CarriedPackets(f: Sent, ps: seq<Rx>, k: nat, trailer: Rx)
    requires Trailer(trailer) && forall j :: 0 <= j < |ps| ==> Carries(f, ps[j], k + j + 1)
    ensures forall i :: 0 <= i < |ps + [Eot, trailer]| ==> Packet((ps + [Eot, trailer])[i])
  {
    var all := ps + [Eot, trailer];
    forall i | 0 <= i < |all| ensures Packet(all[i]) {
      if i < |ps| {
        assert Carries(f, ps[i], k + i + 1);
      }
    }
  }

  lemma CleanStep(f: Sent, t: Target, st: State, k: nat, rx: Rx)
    requires Sendable(f) && Has(f, t, st, k) && Carries(f, rx, k + 1) && st.remaining > 0
    requires t.File? ==> |f.content| <= t.room
    ensures Handle(t, st, rx).Go? && Has(f, t, Handle(t, st, rx).st, k + 1)
    ensures Handle(t, st, rx).st.replies == st.replies + [Ack]
  {
    hide MetaParse, Flat, Copy;
    NextPiece(f, k);
    DataStep(f, t, st, k, rx, k + 1);
  }

  /** Sent once and undisturbed, a file that the target accepts arrives whole, and success is reported. */
  lemma CleanTransfer(f: Sent, t: Target, meta: Rx, ps: seq<Rx>, trailer: Rx)
    requires Sendable(f) && Carries(f, meta, 0) && Trailer(trailer) && |ps| == |f.blocks|
    requires forall j :: 0 <= j < |ps| ==> Carries(f, ps[j], j + 1)
    requires f.blocks != [] ==> |Flat(f.blocks[..|f.blocks| - 1])| < |f.content|
    requires Accepts(t, Meta(f.name, |f.content|)) && (t.File? ==> |f.content| <= t.room)
    ensures forall i :: 0 <= i < |[meta] + (ps + [Eot, trailer])| ==> Packet(([meta] + (ps + [Eot, trailer]))[i])
    ensures var n := Run(t, START, [meta] + (ps + [Eot, trailer]));
      n.Done? && n.rc == 0 && Delivered(t, n.st) == f.content
      && n.st.replies == [CrcRequest, Ack, CrcRequest] + Acks(|ps|) + [Ack, CrcRequest, Ack]
  {
    hide MetaParse, Flat, Accepts;
    var rest := ps + [Eot, trailer];
    var all := [meta] + rest;
    assert Delivered(t, START) == [];
    var n := Handle(t, START, meta);
    assert n.Go? && Delivered(t, n.st) == [];
    assert Has(f, t, n.st, 0);
    CarriedPackets(f, ps, 0, trailer);
    assert all[0] == meta && all[1..] == rest;
    CleanFrom(f, t, n.st, ps, 0, trailer);
    assert n.st.replies == [CrcRequest, Ack, CrcRequest];
  }

  // ---------- receiver and sender together ----------

  /** What happens to one packet and its answer: nothing, the packet is damaged, or the sender does not hear the
      answer. */
  datatype Fault = Fine | Damaged(rx: Rx) | Unheard

  predicate Possible(fs: seq<Fault>) { forall i :: 0 <= i < |fs| && fs[i].Damaged? ==> Damage(fs[i].rx) }

  /** How an exchange ended, the packet the sender is at, and how many it sent. */
  datatype Ended = Ended(n: Next, at: nat, sent: nat)

  /** A sender that goes on to its next packet when it hears an ACK and sends the packet again when it hears
      anything else or nothing. */
  function Exchange(t: Target, st: State, all: seq<Rx>, i: nat, fs: seq<Fault>): (e: Ended)
    requires Possible(fs) && forall k :: 0 <= k < |all| ==> Packet(all[k])
    ensures e.sent <= |fs|
    decreases |fs|
  {
    if fs == [] || i >= |all| then Ended(Go(st), i, 0)
    else
      assert Packet(all[i]);
      var n := Handle(t, st, if fs[0].Damaged? then fs[0].rx else all[i]);
      if n.Done? then Ended(n, i, 1)
      else
        var heard := if fs[0].Unheard? then [] else Said(st, n);
        var e := Exchange(t, n.st, all, if heard != [] && heard[0] == Ack then i + 1 else i, fs[1..]);
        e.(sent := e.sent + 1)
  }

  /** Faults that a transfer with this many packets left gets over: anything before the end of the file; there the
      answer must be heard; and the trailer must arrive. Fault-free tries enough must come. */
  predicate Recovers(fs: seq<Fault>, left: nat)
  {
    fs != [] && left != 0 &&
    if left == 1 then !fs[0].Damaged?
    else if left == 2 && fs[0].Unheard? then false
    else Recovers(fs[1..], if fs[0].Fine? then left - 1 else left)
  }

  /** The packets that did not bring the sender on. */
  function Faults(fs: seq<Fault>): nat
  {
    if fs == [] then 0 else (if fs[0].Fine? then 0 else 1) + Faults(fs[1..])
  }

  /** The packets of a whole transfer. */
  predicate Whole(f: Sent, all: seq<Rx>)
  {
    && |all| == |f.blocks| + 3 && (forall j :: 0 <= j <= |f.blocks| ==> Carries(f, all[j], j))
    && all[|f.blocks| + 1] == Eot && Trailer(all[|f.blocks| + 2])
  }

  /** The sender's next packet, or one the receiver already has, arrives: it is answered with ACK. */
  lemma TurnTaken(f: Sent, t: Target, st: State, rx: Rx, i: nat, r: int)
    requires Sendable(f) && Has(f, t, st, r) && (r == i - 1 || r == i) && i <= |f.blocks| && Carries(f, rx, i)
    requires Fitting(f, t)
    ensures Packet(rx)
    ensures var n := Handle(t, st, rx);
      n.Go? && Has(f, t, n.st, i) && Said(st, n) != [] && Said(st, n)[0] == Ack
  {
    hide MetaParse, Flat, Copy, Accepts;
    CarriesIs(f, rx, i);
    if r == i {
      DataAgain(f, t, st, i, rx.data[..rx.len]);
    } else if i == 0 {
      MetaTaken(f, t, st, rx);
    } else {
      MoreToCome(f, t, st, i - 1);
      CleanStep(f, t, st, i - 1, rx);
    }
  }

  lemma MetaTaken(f: Sent, t: Target, st: State, rx: Rx)
    requires Has(f, t, st, -1) && Carries(f, rx, 0) && Fitting(f, t)
    ensures var n := Handle(t, st, rx);
      n.Go? && Has(f, t, n.st, 0) && n.st.replies == st.replies + [Ack, CrcRequest]
  {
    hide MetaParse, Flat, Copy, Accepts;
    MetaStep(f, t, st, rx);
  }

  /** The target takes the file, and the sender's last block is not superfluous. */
  predicate Fitting(f: Sent, t: Target)
  {
    && Accepts(t, Meta(f.name, |f.content|)) && (t.File? ==> |f.content| <= t.room)
    && (f.blocks != [] ==> |Flat(f.blocks[..|f.blocks| - 1])| < |f.content|)
  }

  /** The exchange succeeds exactly when the faults are such as it gets over, and then the whole file has arrived
      and every fault has cost one packet. */
  ghost predicate Ends(f: Sent, t: Target, st: State, all: seq<Rx>, i: nat, fs: seq<Fault>)
    requires Possible(fs) && forall k :: 0 <= k < |all| ==> Packet(all[k])
  {
    var e := Exchange(t, st, all, i, fs);
    && i <= |all|
    && (e.n.Done? && e.n.rc == 0 <==> Recovers(fs, |all| - i))
    && (e.n.Done? && e.n.rc == 0 ==>
          Delivered(t, e.n.st) == f.content && 1 <= e.sent && e.sent == |all| - i + Faults(fs[..e.sent - 1]))
  }

  lemma {:induction false} Exchanged(f: Sent, t: Target, st: State, all: seq<Rx>, i: nat, r: int, fs: seq<Fault>)
    requires Sendable(f) && Fitting(f, t) && Whole(f, all) && Possible(fs)
    requires Has(f, t, st, r) && i <= |f.blocks| + 1 && (r == i - 1 || (r == i && i <= |f.blocks|))
    ensures forall k :: 0 <= k < |all| ==> Packet(all[k])
    ensures Ends(f, t, st, all, i, fs)
    decreases |fs|
  {
    hide Has, Carries, Sendable, Fitting, Handle, Delivered, Ends, Exchange, Recovers, Trailer, Damage, Said;
    AllPackets(f, all);
    if fs == [] {
      NoneSent(f, t, st, all, i);
    } else {
      NotTrailer(f, t, st, r);
      OneFault(fs);
      if fs[0].Damaged? {
        Harmless(f, t, st, fs[0].rx, r);
        Exchanged(f, t, Handle(t, st, fs[0].rx).st, all, i, r, fs[1..]);
        Onward(f, t, st, all, i, i, fs);
      } else if i <= |f.blocks| {
        assert Packet(all[i]);
        TurnTaken(f, t, st, all[i], i, r);
        var to := if fs[0].Fine? then i + 1 else i;
        Exchanged(f, t, Handle(t, st, all[i]).st, all, to, i, fs[1..]);
        Onward(f, t, st, all, i, to, fs);
      } else {
        EotTaken(f, t, st);
        EotSent(f, t, st, all, i, fs);
      }
    }
  }

  lemma NoneSent(f: Sent, t: Target, st: State, all: seq<Rx>, i: nat)
    requires Whole(f, all) && i <= |f.blocks| + 1 && forall k :: 0 <= k < |all| ==> Packet(all[k])
    ensures |all| == |f.blocks| + 3 && Possible([]) && Ends(f, t, st, all, i, [])
  {
    hide Carries, Handle;
  }

  lemma OneFault(fs: seq<Fault>)
    requires Possible(fs) && fs != []
    ensures Possible(fs[1..]) && (fs[0].Damaged? ==> Damage(fs[0].rx) && Packet(fs[0].rx))
  {
  }

  /** One packet of the exchange that does not end it. */
  lemma Onward(f: Sent, t: Target, st: State, all: seq<Rx>, i: nat, to: nat, fs: seq<Fault>)
    requires fs != [] && Possible(fs) && Possible(fs[1..]) && i < |all| && forall k :: 0 <= k < |all| ==> Packet(all[k])
    requires var rx := if fs[0].Damaged? then fs[0].rx else all[i];
      && Packet(rx)
      && var n := Handle(t, st, rx);
      && n.Go? && Said(st, n) != [] && (Said(st, n)[0] == Ack <==> !fs[0].Damaged?)
      && Ends(f, t, n.st, all, to, fs[1..])
    requires to == (if fs[0].Fine? then i + 1 else i) && i + 1 < |all| && (fs[0].Damaged? || i + 2 < |all|)
    ensures Ends(f, t, st, all, i, fs)
  {
    hide Handle, Delivered, Said, Packet;
    FaultsStep(fs, Exchange(t, st, all, i, fs).sent);
  }

  /** The end of the file. */
  lemma EotSent(f: Sent, t: Target, st: State, all: seq<Rx>, i: nat, fs: seq<Fault>)
    requires fs != [] && !fs[0].Damaged? && Possible(fs) && Whole(f, all) && i == |f.blocks| + 1
    requires forall k :: 0 <= k < |all| ==> Packet(all[k])
    requires var n := Handle(t, st, Eot);
      n.Go? && n.st.trailer && n.st.remaining == 0 && Delivered(t, n.st) == f.content && Said(st, n) == [Ack, CrcRequest]
    ensures Ends(f, t, st, all, i, fs)
  {
    hide Handle, Delivered, Said, Packet, Carries;
    OneFault(fs);
    AtTrailer(f, t, Handle(t, st, Eot).st, all, if fs[0].Fine? then i + 1 else i, fs[1..]);
    FaultsStep(fs, Exchange(t, st, all, i, fs).sent);
  }

  lemma FaultsStep(fs: seq<Fault>, n: nat)
    requires fs != [] && n <= |fs|
    ensures n >= 2 ==> Faults(fs[..n - 1]) == (if fs[0].Fine? then 0 else 1) + Faults(fs[1..][..n - 2])
    ensures n >= 1 ==> Faults(fs[..0]) == 0
  {
    if n >= 2 {
      assert fs[..n - 1][1..] == fs[1..][..n - 2];
    }
  }

  lemma AllPackets(f: Sent, all: seq<Rx>)
    requires Whole(f, all)
    ensures forall k :: 0 <= k < |all| ==> Packet(all[k])
  {
    forall k | 0 <= k < |all| ensures Packet(all[k]) {
      if k <= |f.blocks| {
        assert Carries(f, all[k], k);
      }
    }
  }

  lemma NotTrailer(f: Sent, t: Target, st: State, r: int)
    requires Has(f, t, st, r)
    ensures !st.trailer && -1 <= r <= |f.blocks| && (st.seen <==> r >= 0)
  {
  }

  /** A damaged packet is answered with NAK and changes nothing. */
  lemma Harmless(f: Sent, t: Target, st: State, rx: Rx, r: int)
    requires Has(f, t, st, r) && Damage(rx)
    ensures var n := Handle(t, st, rx);
      n.Go? && Has(f, t, n.st, r) && Said(st, n) == [Nak]
  {
    hide MetaParse, Flat, Copy, Reach;
    Answered(t, st, rx);
    var n := Handle(t, st, rx);
    assert Delivered(t, n.st) == Delivered(t, st);
  }

  /** The end of the file is acknowledged once all has come. */
  lemma EotTaken(f: Sent, t: Target, st: State)
    requires Sendable(f) && Has(f, t, st, |f.blocks|)
    ensures var n := Handle(t, st, Eot);
      n.Go? && n.st.trailer && n.st.remaining == 0 && Delivered(t, n.st) == f.content
      && Said(st, n) == [Ack, CrcRequest]
  {
    hide MetaParse, Flat, Copy;
    assert f.blocks[..|f.blocks|] == f.blocks;
    assert f.blocks == [] ==> Flat(f.blocks) == [] by { FlatNone(); }
    assert Reach(f, |f.blocks|) == |f.content|;
    var n := Handle(t, st, Eot);
    assert Delivered(t, n.st) == Delivered(t, st);
  }

  /** Behind the end of the file the trailer ends the exchange, and anything else breaks it off. */
  lemma AtTrailer(f: Sent, t: Target, st: State, all: seq<Rx>, i: nat, fs: seq<Fault>)
    requires Whole(f, all) && (i == |f.blocks| + 1 || i == |f.blocks| + 2) && Possible(fs)
    requires st.trailer && st.remaining == 0 && Delivered(t, st) == f.content
    requires forall k :: 0 <= k < |all| ==> Packet(all[k])
    ensures var e := Exchange(t, st, all, i, fs);
      && (e.n.Done? && e.n.rc == 0 <==> i == |f.blocks| + 2 && Recovers(fs, 1))
      && (e.n.Done? && e.n.rc == 0 ==> Delivered(t, e.n.st) == f.content && e.sent == 1)
  {
    hide MetaParse, Flat, Copy, Carries;
    if fs != [] {
      var n := Handle(t, st, if fs[0].Damaged? then fs[0].rx else all[i]);
      assert Delivered(t, n.st) == Delivered(t, st);
    }
  }

  /** A sender that repeats what is not acknowledged and the receiver, from the beginning: the transfer succeeds
      exactly when the faults are such as it gets over. Then the whole file has arrived, and one packet was
      sent for each block, the metadata, the end and the trailer, and one for each fault. */
  lemma Transfer(f: Sent, t: Target, all: seq<Rx>, fs: seq<Fault>)
    requires Sendable(f) && Fitting(f, t) && Whole(f, all) && Possible(fs)
    ensures forall k :: 0 <= k < |all| ==> Packet(all[k])
    ensures var e := Exchange(t, START, all, 0, fs);
      && (e.n.Done? && e.n.rc == 0 <==> Recovers(fs, |all|))
      && (e.n.Done? && e.n.rc == 0 ==>
            Delivered(t, e.n.st) == f.content && 1 <= e.sent && e.sent == |all| + Faults(fs[..e.sent - 1]))
  {
    assert Has(f, t, START, -1) by {
      assert Delivered(t, START) == [];
    }
    Exchanged(f, t, START, all, 0, -1, fs);
  }

  // ---------- metadata as a sender writes it ----------

  /** The decimal digits of v. */
  function Dec(v: nat): (d: seq<byte>)
    ensures d != [] && forall i :: 0 <= i < |d| ==> Digit(d[i])
  {
    if v < 10 then [0x30 + v] else Dec(v / 10) + [0x30 + v % 10]
  }

  function Fold(d: seq<byte>): (v: nat)
    requires forall i :: 0 <= i < |d| ==> Digit(d[i])
  {
    if d == [] then 0 else
      assert Digit(d[|d| - 1]);
      (Fold(d[..|d| - 1]) * 10 + (d[|d| - 1] - 0x30)) % U32
  }

  lemma {:induction false} FoldDec(v: nat)
    requires v < U32
    ensures Fold(Dec(v)) == v
  {
    var d := Dec(v);
    if v < 10 {
      assert d[..0] == [] && Fold([]) == 0;
    } else {
      FoldDec(v / 10);
      assert d[..|d| - 1] == Dec(v / 10);
      assert v == v / 10 * 10 + v % 10;
    }
  }

  lemma {:induction false} DecimalFolds(data: seq<byte>, i: nat, j: nat)
    requires i <= j <= |data| && forall k :: i <= k < j ==> Digit(data[k])
    ensures Decimal(data, i, 0) == Decimal(data, j, Fold(data[i..j]))
    decreases j
  {
    if i == j {
      assert data[i..j] == [];
    } else {
      DecimalFolds(data, i, j - 1);
      assert data[i..j][..j - 1 - i] == data[i..j - 1];
    }
  }

  lemma {:induction false} StrLenIs(data: seq<byte>, i: nat, n: nat)
    requires i + n < |data| && data[i + n] == 0 && forall j :: i <= j < i + n ==> data[j] != 0
    ensures StrLen(data, i) == n
    decreases n
  {
    if n > 0 {
      StrLenIs(data, i + 1, n - 1);
    }
  }

  /** A name, a zero byte, the size in decimal and something that is no digit are understood as that name and
      that size. */
  lemma MetaRoundTrip(name: seq<byte>, v: nat, rest: seq<byte>, len: nat)
    requires name != [] && |name| < NAMESZ && (forall i :: 0 <= i < |name| ==> name[i] != 0) && v < U32
    requires rest != [] && !Digit(rest[0])
    requires |name| + 1 < len <= |name + [0] + Dec(v) + rest|
    ensures MetaParse(name + [0] + Dec(v) + rest, len) == Some(Meta(name, v))
  {
    var data, n, d := name + [0] + Dec(v) + rest, |name|, Dec(v);
    StrLenIs(data, 0, n);
    DecimalFolds(data, n + 1, n + 1 + |d|);
    assert data[n + 1..n + 1 + |d|] == d;
    assert data[n + 1 + |d|] == rest[0];
    FoldDec(v);
    assert data[..n] == name;
  }

  // ---------- the size that wraps the check ----------

  /** Blocks of 1024 bytes with running numbers are all taken in while enough of the file remains. */
  lemma {:induction false} Pump(t: Target, st: State, k: nat) returns (ps: seq<Rx>)
    requires t.Buffer? && st.seen && !st.trailer && st.expected >= 1 && st.remaining >= 1024 * k
    requires forall i :: i in st.mem <==> 0 <= i < st.offset
    ensures forall i :: 0 <= i < |ps| ==> Packet(ps[i])
    ensures var n := Run(t, st, ps);
      n.Go? && n.st.offset == st.offset + 1024 * k && forall i :: i in n.st.mem <==> 0 <= i < n.st.offset
    decreases k
  {
    ps := [];
    if k > 0 {
      var data := seq<byte>(1024, _ => 0);
      var rx := Block(st.expected % 256, 1024, data);
      assert data[..1024] == data;
      var n := Handle(t, st, rx);
      assert n.Go? && n.st.offset == st.offset + 1024;
      var rest := Pump(t, n.st, k - 1);
      ps := [rx] + rest;
      assert ps[1..] == rest;
    }
  }

  /** Announcing 2^32 - 1 bytes passes the size check of every buffer, and packets that follow are then
      copied to memory behind the buffer. */
  lemma WrapOverruns(t: Target, meta: Rx) returns (ps: seq<Rx>, at: nat)
    requires t.Buffer? && 0 < t.bufsz < 0x8000_0000
    requires meta.Block? && Packet(meta) && meta.num == 0 && MetaParse(meta.data, meta.len).Some?
    requires var m := MetaParse(meta.data, meta.len).value;
      m.size == U32 - 1 && (t.wanted.Some? ==> m.name == t.wanted.value)
    ensures forall i :: 0 <= i < |ps| ==> Packet(ps[i])
    ensures at in Run(t, START, ps).st.mem && at >= t.bufsz
  {
    var n := Handle(t, START, meta);
    assert n.Go? && n.st.seen && n.st.remaining == U32 - 1;
    var k := t.bufsz / 1024 + 1;
    var rest := Pump(t, n.st, k);
    ps := [meta] + rest;
    assert ps[1..] == rest;
    at := 1024 * k - 1;
  }

  // ---------- the receiver over the line ----------

  /** The packets that the line carries, up to the silence behind its end. */
  function Packets(input: seq<Sym>, pos: nat, data: seq<byte>): (ps: seq<Rx>)
    requires |data| == DATASZ
    ensures forall i :: 0 <= i < |ps| ==> Packet(ps[i])
    ensures ps != []
    decreases if pos < |input| then |input| - pos else 0
  {
    var r := Parse(input, pos, data);
    if pos >= |input| then [Timeout] else [r.rx] + Packets(input, r.pos, r.data)
  }

  lemma RunOne(t: Target, st: State, input: seq<Sym>, pos: nat, data: seq<byte>)
    requires |data| == DATASZ
    ensures var r := Parse(input, pos, data);
      && Packet(r.rx)
      && var n := Handle(t, st, r.rx);
      Run(t, st, Packets(input, pos, data)) == if n.Done? then n else Run(t, n.st, Packets(input, r.pos, r.data))
  {
    var r := Parse(input, pos, data);
    var ps := Packets(input, pos, data);
    if pos < |input| {
      assert ps[1..] == Packets(input, r.pos, r.data);
    }
  }

  class Receiver {
    const target: Target
    var seen: bool
    var expected: nat
    var size: nat
    var remaining: nat
    var offset: nat
    var mem: map<nat, byte>
    var written: seq<byte>
    var replies: seq<Reply>

    constructor (t: Target)
      ensures target == t && View(false) == START.(replies := [])
    {
      target := t;
      seen, expected, size, remaining, offset := false, 1, 0, 0, 0;
      mem, written, replies := map[], [], [];
    }

    function View(trailer: bool): State
      reads this
    {
      State(seen, trailer, expected, size, remaining, offset, mem, written, replies)
    }

    method Reply(r: Reply)
      modifies this`replies
      ensures replies == old(replies) + [r]
    {
      replies := replies + [r];
    }

    /** ymodem_receive_internal from its first request on. */
    method Receive(input: seq<Sym>) returns (rc: int)
      requires View(false) == START.(replies := [])
      modifies this
      ensures var n := Run(target, START, Packets(input, 0, seq<byte>(DATASZ, _ => 0)));
        n.Done? && rc == n.rc && View(n.st.trailer) == n.st
    {
      hide Run, Packets, Parse;
      ghost var empty := seq<byte>(DATASZ, _ => 0);
      Reply(CrcRequest);
      var pos: nat, data := 0, seq<byte>(DATASZ, _ => 0);
      assert View(false) == START;
      while true
        invariant |data| == DATASZ
        invariant Run(target, START, Packets(input, 0, empty)) == Run(target, View(false), Packets(input, pos, data))
        decreases if pos < |input| then |input| - pos else 0
      {
        ghost var st, over := View(false), pos >= |input|;
        RunOne(target, st, input, pos, data);
        var r := PacketRead(input, pos, data);
        assert over ==> r.rx.Timeout?;
        pos, data := r.pos, r.data;
        match r.rx {
          case Eot =>
            if !seen {
              Reply(Cancel);
              return -1;
            }
            Reply(Ack);
            Reply(CrcRequest);
            ghost var waiting := View(true);
            assert waiting == Handle(target, st, Eot).st;
            RunOne(target, waiting, input, pos, data);
            r := PacketRead(input, pos, data);
            if !r.rx.Block? || r.rx.num != 0 || r.rx.data[0] != 0 {
              Reply(Cancel); // bad trailer
              return -1;
            }
            if remaining != 0 {
              Reply(Cancel); // short transfer
              return -1;
            }
            Reply(Ack);
            if target.Buffer? {
              mem := mem[offset := 0];
            }
            return 0;
          case Can => return -1;
          case Timeout =>
            Reply(Cancel);
            return -1;
          case Block(num, len, d) =>
            var going;
            if seen {
              going := TakeData(num, d[..len]);
            } else {
              going := TakeMeta(num, len, d);
            }
            if !going {
              return -1;
            }
          case _ => Reply(Nak);
        }
      }
      rc := 0;
    }

    method TakeMeta(num: byte, len: nat, data: seq<byte>) returns (going: bool)
      requires len <= |data| && 0 < |data|
      modifies this
      ensures var n := HandleMeta(target, old(View(false)), num, len, data);
        going == n.Go? && View(false) == n.st && (n.Done? ==> n.rc == -1)
    {
      var m := MetaParse(data, len);
      if num != 0 || m.None? || !Accepts(target, m.value) {
        Reply(Cancel);
        return false;
      }
      size, remaining := m.value.size, m.value.size;
      Reply(Ack);
      Reply(CrcRequest);
      seen, expected := true, 1;
      going := true;
    }

    method TakeData(num: byte, payload: seq<byte>) returns (going: bool)
      modifies this
      ensures var n := HandleData(target, old(View(false)), num, payload);
        going == n.Go? && View(false) == n.st && (n.Done? ==> n.rc == -1)
    {
      if num == (expected - 1) % 256 {
        Reply(Ack); // a block that came before
        return true;
      }
      if num != expected % 256 || remaining == 0 {
        Reply(Cancel);
        return false;
      }
      var chunk := payload;
      if |chunk| > remaining {
        chunk := payload[..remaining];
      }
      assert chunk == payload[..Min(|payload|, remaining)];
      if target.Buffer? {
        mem := Copy(mem, offset, chunk);
        offset := offset + |chunk|;
      } else {
        var room := if target.room < |written| then 0 else target.room - |written|;
        if |written| + |chunk| > target.room {
          written := written + chunk[..room];
          Reply(Cancel);
          return false;
        }
        written := written + chunk;
      }
      remaining := remaining - |chunk|;
      Reply(Ack);
      expected := expected + 1;
      going := true;
    }
  }
}
