/**
  Client frames of RFC 6455 (sections 5.2 and 5.3) over a byte stream that may deliver any number of bytes
  per read: what the receiver makes of any stream, and that it undoes the sender.
 */
module WebSocket {
  import opened Common

  const PING := 9
  const PONG := 10

  // Exclusive or, bit by bit.

  function Xor(a: nat, b: nat, bits: nat): nat
    decreases bits
  {
    if bits == 0 then 0 else (a + b) % 2 + 2 * Xor(a / 2, b / 2, bits - 1)
  }

  lemma {:induction false} XorBounded(a: nat, b: nat, bits: nat)
    ensures Xor(a, b, bits) < Pow2(bits)
    decreases bits
  {
    if bits != 0 { XorBounded(a / 2, b / 2, bits - 1); }
  }

  lemma {:induction false} XorTwice(a: nat, b: nat, bits: nat)
    requires a < Pow2(bits)
    ensures Xor(Xor(a, b, bits), b, bits) == a
    decreases bits
  {
    if bits != 0 {
      hide Xor;
      var x := Xor(a, b, bits);
      XorTwice(a / 2, b / 2, bits - 1);
      XorHalves(a, b, bits);
      XorHalves(x, b, bits);
      Parity(a, b, x);
    }
  }

  lemma Parity(a: nat, b: nat, x: nat)
    requires x % 2 == (a + b) % 2
    ensures (x + b) % 2 == a % 2
  {
  }

  lemma XorHalves(a: nat, b: nat, bits: nat)
    requires bits > 0
    ensures Xor(a, b, bits) / 2 == Xor(a / 2, b / 2, bits - 1) && Xor(a, b, bits) % 2 == (a + b) % 2
  {
  }

  lemma Pow2Of8()
    ensures Pow2(8) == 256
  {
    assert Pow2(4) == 16;
  }

  function XorByte(a: Byte, b: Byte): Byte {
    XorBounded(a, b, 8);
    Pow2Of8();
    Xor(a, b, 8)
  }

  lemma XorByteTwice(a: Byte, b: Byte)
    ensures XorByte(XorByte(a, b), b) == a
  {
    Pow2Of8();
    XorTwice(a, b, 8);
  }

  // Frames.

  type Mask = m: seq<Byte> | |m| == 4 witness [0, 0, 0, 0]

  function Masked(data: seq<Byte>, mask: Mask): (r: seq<Byte>)
    ensures |r| == |data|
  {
    seq(|data|, i requires 0 <= i < |data| => XorByte(data[i], mask[i % 4]))
  }

  /** Masking is its own inverse, also on a part of the data. */
  lemma MaskTwice(data: seq<Byte>, mask: Mask, n: nat)
    requires n <= |data|
    ensures Masked(Masked(data, mask)[..n], mask) == data[..n]
  {
    hide XorByte;
    forall i | 0 <= i < n ensures Masked(Masked(data, mask)[..n], mask)[i] == data[i] {
      XorByteTwice(data[i], mask[i % 4]);
    }
  }

  /** The first byte: the final-fragment bit over the opcode. */
  function First(opcode: Byte): Byte { if opcode < 128 then opcode + 128 else opcode }

  /** The length of a masked payload, in one byte or three. */
  function LengthField(n: nat): (r: seq<Byte>)
    requires n < 65536
  {
    if n < 126 then [128 + n] else [128 + 126, n / 256, n % 256]
  }

  function Frame(opcode: Byte, mask: Mask, payload: seq<Byte>): seq<Byte>
    requires |payload| < 65536
  {
    [First(opcode)] + LengthField(|payload|) + mask + Masked(payload, mask)
  }

  /**
    The two bytes in front, by section 5.2 of RFC 6455: the final fragment, no reserved bits, the opcode; the mask
    bit, and the length or the sign that it follows in two bytes.
   */
  lemma FrameStart(opcode: Byte, mask: Mask, payload: seq<Byte>)
    requires |payload| < 65536
    ensures var s, n := Frame(opcode, mask, payload), |payload|;
            && s[0] >= 128 && s[0] % 128 == opcode % 128 && (opcode < 16 ==> s[0] / 16 == 8 && s[0] % 16 == opcode)
            && s[1] >= 128 && (s[1] % 128 == n < 126 || (s[1] % 128 == 126 <= n == s[2] as int * 256 + s[3] as int))
  {
    hide Masked;
    var s := Frame(opcode, mask, payload);
    assert s == [First(opcode)] + (LengthField(|payload|) + (mask + Masked(payload, mask)));
  }

  // What the receiver makes of a stream.

  function Unsigned(bytes: seq<Byte>): nat {
    if bytes == [] then 0 else Unsigned(bytes[..|bytes| - 1]) * 256 + bytes[|bytes| - 1]
  }

  /** A 64-bit length cast to a 32-bit int. */
  function ToInt(n: nat): int {
    var low := n % 0x1_0000_0000;
    if low < 0x8000_0000 then low else low - 0x1_0000_0000
  }

  /** How many bytes of extended length follow the second byte. */
  function Extra(second: Byte): nat {
    if second % 128 == 126 then 2 else if second % 128 == 127 then 8 else 0
  }

  datatype Decoded = CutOff | Got(opcode: Byte, payload: seq<Byte>, rest: seq<Byte>)

  /** The number of payload bytes taken, for a length as announced and the room there is. */
  function Taken(length: nat, maxout: nat): nat {
    if ToInt(length) > maxout then maxout else if ToInt(length) < 0 then 0 else ToInt(length)
  }

  function DecodeBody(opcode: Byte, masked: bool, length: nat, s: seq<Byte>, maxout: nat): Decoded {
    if masked && |s| < 4 then CutOff
    else
      var data := if masked then s[4..] else s;
      var n := Taken(length, maxout);
      if |data| < n then CutOff
      else Got(opcode, if masked then Masked(data[..n], s[..4]) else data[..n], data[n..])
  }

  function Decode(s: seq<Byte>, maxout: nat): Decoded {
    if |s| < 2 then CutOff
    else
      var k := Extra(s[1]);
      if |s| < 2 + k then CutOff
      else DecodeBody(s[0] % 16, s[1] >= 128, if k == 0 then s[1] % 128 else Unsigned(s[2..2 + k]), s[2 + k..], maxout)
  }

  /**
    The receiver undoes the sender, whatever follows the frame: the opcode's four bits and as much of the
    payload as there is room for, and what stays in the stream is the part that did not fit and then the rest.
   */
  lemma DecodeFrame(opcode: Byte, mask: Mask, payload: seq<Byte>, rest: seq<Byte>, maxout: nat)
    requires |payload| < 65536
    ensures var n := if |payload| <= maxout then |payload| else maxout;
            Decode(Frame(opcode, mask, payload) + rest, maxout) ==
              Got(opcode % 16, payload[..n], Masked(payload, mask)[n..] + rest)
  {
    hide Masked, DecodeBody;
    var s := Frame(opcode, mask, payload) + rest;
    var field := LengthField(|payload|);
    var body := mask + Masked(payload, mask) + rest;
    assert s == [First(opcode)] + field + body;
    assert s[0] % 16 == opcode % 16;
    var k := Extra(s[1]);
    assert s[1] == field[0] && |field| == 1 + k;
    assert s[2 + k..] == body;
    if k == 2 {
      assert s[2..4] == [|payload| / 256, |payload| % 256];
      UnsignedOfTwo(|payload| / 256, |payload| % 256);
    }
    assert Decode(s, maxout) == DecodeBody(opcode % 16, true, |payload|, body, maxout);
    DecodeMasked(opcode % 16, mask, payload, rest, maxout);
  }

  lemma UnsignedOfTwo(a: Byte, b: Byte)
    ensures Unsigned([a, b]) == a * 256 + b
  {
    assert [a, b][..1] == [a];
    assert [a][..0] == [];
    assert Unsigned([a]) == a;
  }

  lemma DecodeMasked(opcode: Byte, mask: Mask, payload: seq<Byte>, rest: seq<Byte>, maxout: nat)
    requires |payload| < 65536
    ensures var n := if |payload| <= maxout then |payload| else maxout;
            DecodeBody(opcode, true, |payload|, mask + Masked(payload, mask) + rest, maxout) ==
              Got(opcode, payload[..n], Masked(payload, mask)[n..] + rest)
  {
    hide Masked;
    var n := if |payload| <= maxout then |payload| else maxout;
    var s := mask + Masked(payload, mask) + rest;
    assert s[..4] == mask;
    assert s[4..] == Masked(payload, mask) + rest;
    assert s[4..][..n] == Masked(payload, mask)[..n];
    assert s[4..][n..] == Masked(payload, mask)[n..] + rest;
    MaskTwice(payload, mask, n);
  }

  /** A frame comes back whole, and exactly the frame is consumed, if and only if there is room for its payload. */
  lemma RoundTrip(opcode: Byte, mask: Mask, payload: seq<Byte>, rest: seq<Byte>, maxout: nat)
    requires |payload| < 65536 && opcode < 16
    ensures Decode(Frame(opcode, mask, payload) + rest, maxout) == Got(opcode, payload, rest) <==> |payload| <= maxout
  {
    hide Decode, Frame, Masked;
    DecodeFrame(opcode, mask, payload, rest, maxout);
    if |payload| <= maxout {
      assert payload[..|payload|] == payload;
      assert Masked(payload, mask)[|payload|..] + rest == rest;
    } else {
      assert |payload[..maxout]| != |payload|;
    }
  }

  // Sending.

  const MAX_FRAME := 65536

  /** In-place masking of part of a buffer. */
  method MaskData(buf: array<Byte>, off: nat, n: nat, mask: Mask)
    requires off + n <= buf.Length
    modifies buf
    ensures buf[off..off + n] == Masked(old(buf[off..off + n]), mask)
    ensures buf[..off] == old(buf[..off]) && buf[off + n..] == old(buf[off + n..])
  {
    hide XorByte;
    var i := 0;
    while i < n
      invariant 0 <= i <= n
      invariant forall k :: 0 <= k < buf.Length && !(off <= k < off + i) ==> buf[k] == old(buf[k])
      invariant forall k :: 0 <= k < i ==> buf[off + k] == XorByte(old(buf[off + k]), mask[k % 4])
    {
      buf[off + i] := XorByte(buf[off + i], mask[i % 4]);
      i := i + 1;
    }
    assert buf[off..off + n] == Masked(old(buf[off..off + n]), mask);
  }

  method CopyInto(buf: array<Byte>, off: nat, data: seq<Byte>)
    requires off + |data| <= buf.Length
    modifies buf
    ensures buf[off..off + |data|] == data
    ensures buf[..off] == old(buf[..off]) && buf[off + |data|..] == old(buf[off + |data|..])
  {
    var i := 0;
    while i < |data|
      invariant 0 <= i <= |data|
      invariant forall k :: 0 <= k < buf.Length && !(off <= k < off + i) ==> buf[k] == old(buf[k])
      invariant forall k :: 0 <= k < i ==> buf[off + k] == data[k]
    {
      buf[off + i] := data[i];
      i := i + 1;
    }
  }

  /** The header of a frame, written at the start of the buffer. */
  method PutHeader(frame: array<Byte>, opcode: Byte, n: nat, mask: Mask) returns (off: nat)
    requires n < 65536 && 8 <= frame.Length
    modifies frame
    ensures 6 <= off <= 8 && frame[..off] == [First(opcode)] + LengthField(n) + mask
  {
    frame[0] := First(opcode);
    off := 1;
    if n < 126 {
      frame[off] := 128 + n;
      off := off + 1;
    } else {
      frame[off] := 128 + 126;
      off := off + 1;
      frame[off] := n / 256;
      off := off + 1;
      frame[off] := n % 256;
      off := off + 1;
    }
    assert frame[..off] == [First(opcode)] + LengthField(n);
    CopyInto(frame, off, mask);
    assert frame[..off + 4] == frame[..off] + frame[off..off + 4];
    off := off + 4;
  }

  /** The bytes that go to the transport are the frame. */
  method SendFrame(opcode: Byte, payload: seq<Byte>, mask: Mask) returns (wire: seq<Byte>)
    requires |payload| < 65536
    ensures wire == Frame(opcode, mask, payload)
  {
    hide First, LengthField, Masked;
    var frame := new Byte[MAX_FRAME + 14](_ => 0);
    var off := PutHeader(frame, opcode, |payload|, mask);
    ghost var header := frame[..off];
    CopyInto(frame, off, payload);
    MaskData(frame, off, |payload|, mask);
    assert frame[..off] == header;
    wire := frame[..off + |payload|];
    assert wire == frame[..off] + frame[off..off + |payload|];
  }

  // Receiving.

  /**
    A connection: bytes that will arrive, and for each read to come how many bytes it may deliver.  A read
    that may deliver nothing, or one more read than foreseen, is a failure.
   */
  class Transport {
    var pending: seq<Byte>
    var sizes: seq<nat>

    /** No read fails while bytes are pending. */
    ghost predicate Steady()
      reads this
    {
      |sizes| >= |pending| && forall i :: 0 <= i < |sizes| ==> sizes[i] > 0
    }

    /** One read delivers between one and `want` bytes, or fails. */
    method Recv(want: nat) returns (got: seq<Byte>)
      requires want > 0
      modifies this
      ensures |got| <= want && old(pending) == got + pending
      ensures old(Steady()) && |old(pending)| > 0 ==> |got| > 0 && Steady()
    {
      got := [];
      if |sizes| == 0 { return; }
      var n := sizes[0];
      sizes := sizes[1..];
      if n > want { n := want; }
      if n > |pending| { n := |pending|; }
      got := pending[..n];
      pending := pending[n..];
    }

    /** Short reads are repeated until `n` bytes have arrived. */
    method ReadInto(buf: array<Byte>, n: nat) returns (ok: bool)
      requires n <= buf.Length
      modifies this, buf
      ensures ok ==> n <= |old(pending)| && buf[..n] == old(pending)[..n] && pending == old(pending)[n..]
      ensures old(Steady()) && n <= |old(pending)| ==> ok && Steady()
    {
      ghost var all := pending;
      var got := 0;
      while got < n
        invariant 0 <= got <= n && got <= |all| && pending == all[got..] && buf[..got] == all[..got]
        invariant old(Steady()) && n <= |all| ==> Steady()
        decreases n - got
      {
        var part := Recv(n - got);
        if |part| == 0 { return false; }
        CopyInto(buf, got, part);
        assert buf[..got + |part|] == buf[..got] + buf[got..got + |part|];
        got := got + |part|;
      }
      return true;
    }
  }

  method BigEndian(buf: array<Byte>, n: nat) returns (v: nat)
    requires n <= buf.Length
    ensures v == Unsigned(buf[..n])
  {
    v := 0;
    var i := 0;
    while i < n
      invariant 0 <= i <= n && v == Unsigned(buf[..i])
    {
      v := v * 256 + buf[i];
      assert buf[..i + 1][..i] == buf[..i];
      i := i + 1;
    }
  }

  /** The header's fields: `HeaderOk` says that they are those at the front of a stream. */
  datatype Fields = Fields(opcode: Byte, masked: bool, length: nat)

  ghost predicate HeaderOk(s: seq<Byte>, f: Fields, rest: seq<Byte>) {
    && |s| >= 2 && |s| >= 2 + Extra(s[1])
    && f == Fields(s[0] % 16, s[1] >= 128, if Extra(s[1]) == 0 then s[1] % 128 else Unsigned(s[2..2 + Extra(s[1])]))
    && rest == s[2 + Extra(s[1])..]
  }

  lemma HeaderDecodes(s: seq<Byte>, f: Fields, rest: seq<Byte>, maxout: nat)
    requires HeaderOk(s, f, rest)
    ensures Decode(s, maxout) == DecodeBody(f.opcode, f.masked, f.length, rest, maxout)
  {
  }

  method ReadHeader(t: Transport) returns (ok: bool, f: Fields)
    modifies t
    ensures ok ==> HeaderOk(old(t.pending), f, t.pending)
    ensures old(t.Steady()) && 2 <= |old(t.pending)| && 2 + Extra(old(t.pending)[1]) <= |old(t.pending)| ==> ok && t.Steady()
  {
    hide Unsigned;
    ghost var all := t.pending;
    f := Fields(0, false, 0);
    var hdr := new Byte[2](_ => 0);
    ok := t.ReadInto(hdr, 2);
    if !ok { return; }
    assert hdr[0] == hdr[..2][0] == all[0] && hdr[1] == hdr[..2][1] == all[1];
    var length := hdr[1] % 128;
    var k := Extra(hdr[1]);
    if k != 0 {
      var ext := new Byte[8](_ => 0);
      ok := t.ReadInto(ext, k);
      if !ok { return; }
      length := BigEndian(ext, k);
      assert all[2..][..k] == all[2..2 + k];
      assert all[2..][k..] == all[2 + k..];
    }
    f := Fields(hdr[0] % 16, hdr[1] >= 128, length);
  }

  /** The payload of a frame whose header has been read. */
  method ReadBody(t: Transport, f: Fields, out: array<Byte>, maxout: nat) returns (ok: bool, n: nat)
    requires maxout <= out.Length
    modifies t, out
    ensures n <= maxout
    ensures ok ==> DecodeBody(f.opcode, f.masked, f.length, old(t.pending), maxout) == Got(f.opcode, out[..n], t.pending)
    ensures old(t.Steady()) && DecodeBody(f.opcode, f.masked, f.length, old(t.pending), maxout).Got? ==> ok && t.Steady()
  {
    hide Masked, ToInt;
    ghost var all := t.pending;
    n := Taken(f.length, maxout);
    var mask := new Byte[4](_ => 0);
    if f.masked {
      ok := t.ReadInto(mask, 4);
      if !ok { return; }
    }
    ok := t.ReadInto(out, n);
    if !ok { return; }
    if f.masked {
      assert out[0..0 + n] == out[..n];
      MaskData(out, 0, n, mask[..]);
      assert mask[..] == mask[..4] == all[..4];
      assert out[0..0 + n] == out[..n];
    }
  }

  /**
    Receiving one frame.  Unless a read fails, the result is what `Decode` says of the stream, however the
    stream is cut into reads; a ping is answered with a pong of the same payload, if it can be sent.
   */
  method RecvFrame(t: Transport, out: array<Byte>, maxout: nat, mask: Mask)
    returns (ret: int, opcode: Byte, ghost payload: seq<Byte>, reply: seq<Byte>)
    requires maxout <= out.Length
    modifies t, out
    ensures ret != -1 ==> Decode(old(t.pending), maxout) == Got(opcode, payload, t.pending)
    ensures ret != -1 ==> |payload| <= out.Length && out[..|payload|] == payload
    ensures ret != -1 ==> ret == (if opcode == PING then -2 else |payload|)
    ensures ret != -1 && opcode == PING && |payload| < 65536 ==> reply == Frame(PONG, mask, payload)
    ensures old(t.Steady()) && Decode(old(t.pending), maxout).Got? ==> ret != -1 && t.Steady()
  {
    hide Decode, DecodeBody, Frame;
    ret, opcode, payload, reply := -1, 0, [], [];
    ghost var all := t.pending;
    DecodeNeedsHeader(all, maxout);
    var ok, f := ReadHeader(t);
    if !ok { return; }
    HeaderDecodes(all, f, t.pending, maxout);
    var n: nat;
    ok, n := ReadBody(t, f, out, maxout);
    if !ok { return; }
    opcode, payload := f.opcode, out[..n];
    if opcode == PING {
      if n < 65536 {
        reply := SendFrame(PONG, out[..n], mask);
      }
      ret := -2;
    } else {
      ret := n;
    }
  }

  lemma DecodeNeedsHeader(s: seq<Byte>, maxout: nat)
    ensures Decode(s, maxout).Got? ==> |s| >= 2 && |s| >= 2 + Extra(s[1])
  {
  }

  // Frames back to back.

  datatype Message = Message(opcode: Byte, mask: Mask, payload: seq<Byte>)

  predicate Sendable(m: Message, maxout: nat) {
    m.opcode < 16 && m.opcode != PING && |m.payload| <= maxout && |m.payload| < 65536
  }

  function Wire(messages: seq<Message>, maxout: nat): seq<Byte>
    requires forall i :: 0 <= i < |messages| ==> Sendable(messages[i], maxout)
  {
    if messages == [] then []
    else
      assert Sendable(messages[0], maxout);
      Frame(messages[0].opcode, messages[0].mask, messages[0].payload) + Wire(messages[1..], maxout)
  }

  /** Every message that was sent is received, in order and unchanged, however the stream is cut. */
  method ReceiveAll(t: Transport, ghost messages: seq<Message>, count: nat, maxout: nat, mask: Mask)
    returns (received: seq<(Byte, seq<Byte>)>)
    requires count == |messages| && forall i :: 0 <= i < count ==> Sendable(messages[i], maxout)
    requires t.pending == Wire(messages, maxout) && t.Steady()
    modifies t
    ensures t.pending == [] && |received| == count
    ensures forall i :: 0 <= i < count ==> received[i] == (messages[i].opcode, messages[i].payload)
  {
    hide Decode, Frame;
    received := [];
    var out := new Byte[maxout](_ => 0);
    var i := 0;
    while i < count
      invariant 0 <= i <= count && |received| == i && t.pending == Wire(messages[i..], maxout) && t.Steady()
      invariant forall k :: 0 <= k < i ==> received[k] == (messages[k].opcode, messages[k].payload)
    {
      ghost var m := messages[i];
      ghost var rest := Wire(messages[i + 1..], maxout);
      assert messages[i..][0] == m && messages[i..][1..] == messages[i + 1..];
      assert Sendable(m, maxout);
      RoundTrip(m.opcode, m.mask, m.payload, rest, maxout);
      var ret, opcode, payload, reply := RecvFrame(t, out, maxout, mask);
      received := received + [(opcode, out[..ret])];
      i := i + 1;
    }
  }
}
