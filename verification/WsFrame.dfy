/** WebSocket frames (src/core/ws-frame.ts): the incremental capture parser and the frame encoder. */
module WsFrame {
  import opened Prelude

  datatype Kind = Text | Binary | Ping | Pong | Close

  datatype Message = Message(kind: Kind, data: seq<byte>)

  /** One frame with its payload unmasked; the length and the mask key live on the wire only. */
  datatype Frame = Frame(fin: bool, rsv1: bool, opcode: byte, payload: seq<byte>)

  // ---- bytes on the wire ----

  function Pow256(k: nat): (r: nat)
    ensures r >= 1
  {
    if k == 0 then 1 else 256 * Pow256(k - 1)
  }

  /** The low "k" bytes of "n", most significant first. */
  function BigEndian(n: nat, k: nat): (r: seq<byte>)
    ensures |r| == k
  {
    if k == 0 then [] else BigEndian(n / 256, k - 1) + [ToByte(n)]
  }

  function FromBigEndian(s: seq<byte>): (r: nat) {
    if s == [] then 0 else FromBigEndian(s[..|s| - 1]) * 256 + Value(s[|s| - 1])
  }

  /** A "k"-byte length field gives the number back exactly when the number is below 256^k. */
  lemma {:induction false} BigEndianRoundTrip(n: nat, k: nat)
    ensures FromBigEndian(BigEndian(n, k)) < Pow256(k)
    ensures FromBigEndian(BigEndian(n, k)) <= n
    ensures FromBigEndian(BigEndian(n, k)) == n <==> n < Pow256(k)
  {
    hide ToByte, Value;
    if k > 0 {
      BigEndianRoundTrip(n / 256, k - 1);
      var s := BigEndian(n, k);
      assert s[..|s| - 1] == BigEndian(n / 256, k - 1);
      ToByteValue(n);
    }
  }

  /** Every "k"-byte field is the encoding of the number it stands for. */
  lemma {:induction false} BigEndianSurjective(s: seq<byte>)
    ensures BigEndian(FromBigEndian(s), |s|) == s
  {
    hide ToByte, Value;
    if s != [] {
      BigEndianSurjective(s[..|s| - 1]);
      ByteOf(FromBigEndian(s[..|s| - 1]), s[|s| - 1]);
    }
  }

  lemma ByteOf(high: nat, low: byte)
    ensures (high * 256 + Value(low)) / 256 == high && ToByte(high * 256 + Value(low)) == low
  {
    hide ToByte, Value;
    ByteBound(low);
    ValueToByte(high * 256 + Value(low), low);
  }

  lemma {:induction false} LeadingZeros(z: nat, s: seq<byte>)
    ensures FromBigEndian(seq(z, _ => 0 as byte) + s) == FromBigEndian(s)
  {
    var zeros := seq(z, _ => 0 as byte);
    var t := zeros + s;
    if s != [] {
      LeadingZeros(z, s[..|s| - 1]);
      assert t[..|t| - 1] == zeros + s[..|s| - 1];
    } else if z > 0 {
      LeadingZeros(z - 1, s);
      assert t[..|t| - 1] == seq(z - 1, _ => 0 as byte) + s;
    }
  }

  /** XOR with the four-byte key repeated along the payload (RFC 6455, section 5.3). */
  function Masked(data: seq<byte>, key: seq<byte>): (r: seq<byte>)
    requires |key| == 4
    ensures |r| == |data|
  {
    seq(|data|, i requires 0 <= i < |data| => data[i] ^ key[i % 4])
  }

  /** Masking is its own inverse, for every key. */
  lemma MaskInvolution(data: seq<byte>, key: seq<byte>)
    requires |key| == 4
    ensures Masked(Masked(data, key), key) == data
  {
    forall i | 0 <= i < |data|
      ensures Masked(Masked(data, key), key)[i] == data[i]
    {
      XorTwice(data[i], key[i % 4]);
    }
  }

  lemma XorTwice(x: byte, k: byte)
    ensures (x ^ k) ^ k == x
  {}

  // ---- cutting the first frame off a buffer ----

  datatype Cut = Cut(frame: Frame, size: nat)

  predicate Fin(b0: byte) { b0 & 0x80 != 0 }

  predicate Rsv1(b0: byte) { b0 & 0x40 != 0 }

  function Opcode(b0: byte): byte { b0 & 0x0f }

  predicate IsMasked(b1: byte) { b1 & 0x80 != 0 }

  function Length7(b1: byte): nat { Value(b1 & 0x7f) }

  /** Bytes of the extended length field that follows the second header byte. */
  function ExtendedLength(b1: byte): nat {
    if Length7(b1) == 126 then 2 else if Length7(b1) == 127 then 8 else 0
  }

  function KeyLength(b1: byte): nat {
    if IsMasked(b1) then 4 else 0
  }

  function PayloadLength(b1: byte, ext: seq<byte>): nat {
    if ext == [] then Length7(b1) else FromBigEndian(ext)
  }

  function Unmask(raw: seq<byte>, key: seq<byte>): seq<byte>
    requires |key| == 0 || |key| == 4
  {
    if key == [] then raw else Masked(raw, key)
  }

  /** The first frame of the buffer and the bytes it occupies, once all of it has arrived. */
  function NextFrame(buf: seq<byte>): (r: Option<Cut>)
    ensures r.Some? ==> 2 <= r.value.size <= |buf|
  {
    if |buf| < 2 || |buf| < 2 + ExtendedLength(buf[1]) then None
    else
      var b1 := buf[1];
      var keyAt := 2 + ExtendedLength(b1);
      var offset := keyAt + KeyLength(b1);
      var size := offset + PayloadLength(b1, buf[2..keyAt]);
      if |buf| < size then None
      else Some(Cut(Frame(Fin(buf[0]), Rsv1(buf[0]), Opcode(buf[0]),
                          Unmask(buf[offset..size], buf[keyAt..offset])), size))
  }

  /** A frame that is complete is not changed by what arrives after it. */
  lemma NextFrameStable(buf: seq<byte>, more: seq<byte>)
    requires NextFrame(buf).Some?
    ensures NextFrame(buf + more) == NextFrame(buf)
  {
    hide ExtendedLength, PayloadLength, Unmask, Fin, Rsv1, Opcode, KeyLength;
    var all := buf + more;
    var keyAt := 2 + ExtendedLength(buf[1]);
    var offset := keyAt + KeyLength(buf[1]);
    var size := NextFrame(buf).value.size;
    assert all[2..keyAt] == buf[2..keyAt];
    assert all[keyAt..offset] == buf[keyAt..offset];
    assert all[offset..size] == buf[offset..size];
  }

  // ---- reassembling frames into messages ----

  /** Whether the peer negotiated permessage-deflate, and the raw-inflate function (None: it threw). */
  datatype Config = Config(deflate: bool, inflate: seq<byte> -> Option<seq<byte>>)

  datatype Assembly = Assembly(fragments: seq<seq<byte>>, opcode: byte, compressed: bool)

  const FRESH := Assembly([], 0, false)

  const DEFLATE_TAIL: seq<byte> := [0x00, 0x00, 0xff, 0xff]

  predicate IsControl(opcode: byte) {
    opcode == 8 || opcode == 9 || opcode == 10
  }

  function ControlKind(opcode: byte): Kind {
    if opcode == 8 then Close else if opcode == 9 then Ping else Pong
  }

  function DataKind(opcode: byte): Kind {
    if opcode == 2 then Binary else Text
  }

  /** A finished message body; a body that fails to inflate is kept as it came. */
  function Finish(c: Config, compressed: bool, data: seq<byte>): seq<byte> {
    if !compressed then data
    else match c.inflate(data + DEFLATE_TAIL)
         case Some(plain) => plain
         case None => data
  }

  datatype Accepted = Accepted(asm: Assembly, out: seq<Message>)

  function Accept(c: Config, asm: Assembly, f: Frame): Accepted {
    if IsControl(f.opcode) then Accepted(asm, [Message(ControlKind(f.opcode), f.payload)])
    else
      var next := if f.opcode == 0 then asm.(fragments := asm.fragments + [f.payload])
                  else Assembly([f.payload], f.opcode, c.deflate && f.rsv1);
      if f.fin then
        Accepted(next.(fragments := []),
                 [Message(DataKind(next.opcode), Finish(c, next.compressed, Concat(next.fragments)))])
      else Accepted(next, [])
  }

  datatype Parsed = Parsed(asm: Assembly, buf: seq<byte>, out: seq<Message>)

  /** Everything a buffer yields: all complete frames in order, and the bytes left over. */
  function Parse(c: Config, asm: Assembly, buf: seq<byte>): (r: Parsed)
    ensures NextFrame(r.buf).None?
    decreases |buf|
  {
    match NextFrame(buf)
    case None => Parsed(asm, buf, [])
    case Some(cut) =>
      var step := Accept(c, asm, cut.frame);
      var rest := Parse(c, step.asm, buf[cut.size..]);
      rest.(out := step.out + rest.out)
  }

  lemma ParseStep(c: Config, asm: Assembly, buf: seq<byte>)
    ensures NextFrame(buf).None? ==> Parse(c, asm, buf) == Parsed(asm, buf, [])
    ensures NextFrame(buf).Some? ==>
              var cut := NextFrame(buf).value;
              var step := Accept(c, asm, cut.frame);
              var rest := Parse(c, step.asm, buf[cut.size..]);
              Parse(c, asm, buf) == rest.(out := step.out + rest.out)
  {
    hide NextFrame, Accept;
  }

  /** Chunk independence: parsing x and then y on what x left over is parsing x + y. */
  lemma {:induction false} ParseChunks(c: Config, asm: Assembly, x: seq<byte>, y: seq<byte>)
    ensures var p := Parse(c, asm, x);
            var q := Parse(c, p.asm, p.buf + y);
            Parse(c, asm, x + y) == q.(out := p.out + q.out)
    decreases |x|
  {
    hide NextFrame, Accept, Concat;
    match NextFrame(x)
    case None =>
      assert Parse(c, asm, x).out == [];
    case Some(cut) =>
      NextFrameStable(x, y);
      assert (x + y)[cut.size..] == x[cut.size..] + y;
      ParseChunks(c, Accept(c, asm, cut.frame).asm, x[cut.size..], y);
      var p := Parse(c, asm, x);
      var q := Parse(c, p.asm, p.buf + y);
      var step := Accept(c, asm, cut.frame);
      var tail := Parse(c, step.asm, x[cut.size..]);
      assert step.out + (tail.out + q.out) == (step.out + tail.out) + q.out;
  }

  /** Pushing chunks one after the other. */
  function ParseAll(c: Config, asm: Assembly, buf: seq<byte>, chunks: seq<seq<byte>>): Parsed
    decreases |chunks|
  {
    if chunks == [] then Parsed(asm, buf, [])
    else
      var p := Parse(c, asm, buf + chunks[0]);
      var q := ParseAll(c, p.asm, p.buf, chunks[1..]);
      q.(out := p.out + q.out)
  }

  /** However a byte stream is cut into chunks, the parser ends in the same state with the same output. */
  lemma {:induction false} ParseAllIsParse(c: Config, asm: Assembly, buf: seq<byte>, chunks: seq<seq<byte>>)
    requires NextFrame(buf).None?
    ensures ParseAll(c, asm, buf, chunks) == Parse(c, asm, buf + Concat(chunks))
    decreases |chunks|
  {
    hide NextFrame, Accept;
    if chunks == [] {
      assert buf + Concat(chunks) == buf;
    } else {
      var p := Parse(c, asm, buf + chunks[0]);
      ParseAllIsParse(c, p.asm, p.buf, chunks[1..]);
      ParseChunks(c, asm, buf + chunks[0], Concat(chunks[1..]));
      assert buf + Concat(chunks) == buf + chunks[0] + Concat(chunks[1..]);
    }
  }

  // ---- what a sender may put on the wire (RFC 6455, sections 5.2 to 5.5) ----

  /** The minimal length encoding: seven bits, or 126 and two bytes, or 127 and eight bytes. */
  function LengthBytes(n: nat): (r: seq<byte>)
    ensures |r| >= 1
  {
    if n < 126 then [ToByte(n)]
    else if n < 0x1_0000 then [126] + BigEndian(n, 2)
    else [127] + BigEndian(n, 8)
  }

  function FirstByte(f: Frame): byte {
    (if f.fin then 0x80 else 0) | (if f.rsv1 then 0x40 else 0) | (f.opcode & 0x0f)
  }

  /** A frame on the wire, with the given length field and an optional mask key. */
  function WireWith(f: Frame, key: Option<seq<byte>>, length: seq<byte>): seq<byte>
    requires key.Some? ==> |key.value| == 4
    requires |length| >= 1
  {
    match key
    case None => [FirstByte(f), length[0]] + length[1..] + f.payload
    case Some(k) => [FirstByte(f), 0x80 | length[0]] + length[1..] + k + Masked(f.payload, k)
  }

  function Wire(f: Frame, key: Option<seq<byte>>): seq<byte>
    requires key.Some? ==> |key.value| == 4
  {
    WireWith(f, key, LengthBytes(|f.payload|))
  }

  predicate ValidLength(length: seq<byte>) {
    |length| >= 1 && length[0] < 0x80 && |length| == 1 + ExtendedLength(length[0])
  }

  function DeclaredLength(length: seq<byte>): nat
    requires ValidLength(length)
  {
    if |length| == 1 then Value(length[0]) else FromBigEndian(length[1..])
  }

  lemma Pow256Two()
    ensures Pow256(2) == 0x1_0000
  {}

  /** A number below 126 is its own length field. */
  lemma OneByteLength(n: nat)
    requires n < 126
    ensures ToByte(n) < 0x80 && ExtendedLength(ToByte(n)) == 0 && Value(ToByte(n)) == n
  {
    hide ToByte, Value, Length7;
    ToByteValue(n);
    LowByte(ToByte(n));
  }

  lemma LowByte(b: byte)
    requires Value(b) < 126
    ensures b < 0x80 && Length7(b) == Value(b)
  {
    SmallByte(b);
    assert b & 0x7f == b;
  }

  lemma SmallByte(b: byte)
    requires Value(b) < 126
    ensures b < 0x80
  {}

  lemma LengthMarks()
    ensures ExtendedLength(126) == 2 && ExtendedLength(127) == 8
  {}

  lemma LengthBytesValid(n: nat)
    ensures ValidLength(LengthBytes(n))
    ensures n < Pow256(8) ==> DeclaredLength(LengthBytes(n)) == n
  {
    hide BigEndian, FromBigEndian, ToByte, Value, ExtendedLength, Pow256;
    if n < 126 {
      OneByteLength(n);
    } else if n < 0x1_0000 {
      BigEndianRoundTrip(n, 2);
      Pow256Two();
      LengthMarks();
      assert LengthBytes(n)[1..] == BigEndian(n, 2);
    } else {
      BigEndianRoundTrip(n, 8);
      LengthMarks();
      assert LengthBytes(n)[1..] == BigEndian(n, 8);
    }
  }

  lemma FirstByteBits(f: Frame)
    ensures Fin(FirstByte(f)) == f.fin && Rsv1(FirstByte(f)) == f.rsv1
    ensures f.opcode < 16 ==> Opcode(FirstByte(f)) == f.opcode
  {}

  lemma SecondByteBits(b: byte)
    requires b < 0x80
    ensures Length7(0x80 | b) == Length7(b) == Value(b)
    ensures IsMasked(0x80 | b) && !IsMasked(b)
  {
    assert (0x80 | b) & 0x7f == b && b & 0x7f == b;
  }

  /** The parts of a frame, laid out one after the other, are found again at their places. */
  lemma CutParts(b0: byte, b1: byte, ext: seq<byte>, key: seq<byte>, body: seq<byte>)
    requires |ext| == ExtendedLength(b1) && |key| == KeyLength(b1)
    requires PayloadLength(b1, ext) <= |body|
    ensures var n := PayloadLength(b1, ext);
            NextFrame([b0, b1] + ext + key + body)
            == Some(Cut(Frame(Fin(b0), Rsv1(b0), Opcode(b0), Unmask(body[..n], key)), 2 + |ext| + |key| + n))
  {
    hide ExtendedLength, PayloadLength, Unmask, Fin, Rsv1, Opcode;
    var w := [b0, b1] + ext + key + body;
    var n := PayloadLength(b1, ext);
    var keyAt := 2 + |ext|;
    var offset := keyAt + |key|;
    assert w[2..keyAt] == ext;
    assert w[keyAt..offset] == key;
    assert w[offset..offset + n] == body[..n];
  }

  /** What the parser makes of a frame followed by anything: it takes the declared number of payload
      bytes, whether or not that is the number the sender put there. */
  lemma CutWire(f: Frame, key: Option<seq<byte>>, length: seq<byte>, rest: seq<byte>)
    requires key.Some? ==> |key.value| == 4
    requires ValidLength(length) && DeclaredLength(length) <= |f.payload|
    requires f.opcode < 16
    ensures var n := DeclaredLength(length);
            NextFrame(WireWith(f, key, length) + rest)
            == Some(Cut(f.(payload := f.payload[..n]), |WireWith(f, key, length)| - |f.payload| + n))
  {
    FirstByteBits(f);
    if key.None? {
      CutPlain(f, length, rest);
    } else {
      CutMasked(f, key.value, length, rest);
    }
  }

  lemma CutPlain(f: Frame, length: seq<byte>, rest: seq<byte>)
    requires ValidLength(length) && DeclaredLength(length) <= |f.payload|
    ensures var n := DeclaredLength(length);
            var b0 := FirstByte(f);
            NextFrame(WireWith(f, None, length) + rest)
            == Some(Cut(Frame(Fin(b0), Rsv1(b0), Opcode(b0), f.payload[..n]), 1 + |length| + n))
  {
    hide Masked, FromBigEndian, FirstByte, NextFrame, Length7, IsMasked, Fin, Rsv1, Opcode;
    SecondByteBits(length[0]);
    CutParts(FirstByte(f), length[0], length[1..], [], f.payload + rest);
    assert WireWith(f, None, length) + rest
        == [FirstByte(f), length[0]] + length[1..] + [] + (f.payload + rest);
    assert (f.payload + rest)[..DeclaredLength(length)] == f.payload[..DeclaredLength(length)];
  }

  lemma CutMasked(f: Frame, k: seq<byte>, length: seq<byte>, rest: seq<byte>)
    requires |k| == 4
    requires ValidLength(length) && DeclaredLength(length) <= |f.payload|
    ensures var n := DeclaredLength(length);
            var b0 := FirstByte(f);
            NextFrame(WireWith(f, Some(k), length) + rest)
            == Some(Cut(Frame(Fin(b0), Rsv1(b0), Opcode(b0), f.payload[..n]), 5 + |length| + n))
  {
    hide Masked, FromBigEndian, FirstByte, NextFrame, Length7, IsMasked, Fin, Rsv1, Opcode;
    var n := DeclaredLength(length);
    var body := Masked(f.payload, k);
    SecondByteBits(length[0]);
    CutParts(FirstByte(f), 0x80 | length[0], length[1..], k, body + rest);
    assert WireWith(f, Some(k), length) + rest
        == [FirstByte(f), 0x80 | length[0]] + length[1..] + k + (body + rest);
    assert (body + rest)[..n] == body[..n];
    MaskedPrefix(f.payload, k, n);
    MaskInvolution(f.payload[..n], k);
  }

  lemma MaskedPrefix(data: seq<byte>, key: seq<byte>, n: nat)
    requires |key| == 4 && n <= |data|
    ensures Masked(data, key)[..n] == Masked(data[..n], key)
  {}

  /** Any frame below 2^64 bytes is read back exactly, whatever follows it. */
  lemma WireRoundTrip(f: Frame, key: Option<seq<byte>>, rest: seq<byte>)
    requires key.Some? ==> |key.value| == 4
    requires f.opcode < 16 && |f.payload| < Pow256(8)
    ensures NextFrame(Wire(f, key) + rest) == Some(Cut(f, |Wire(f, key)|))
  {
    hide NextFrame, WireWith, LengthBytes, ValidLength, DeclaredLength, Pow256;
    LengthBytesValid(|f.payload|);
    CutWire(f, key, LengthBytes(|f.payload|), rest);
    assert f.payload[..|f.payload|] == f.payload;
  }
}
