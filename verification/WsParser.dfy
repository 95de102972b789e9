/** The imperative side of src/core/ws-frame.ts: the parser object that is fed chunks, and the encoder
    that fills a masked buffer. Both are proved against the functions of module WsFrame. */
module WsParser {
  import opened Prelude
  import opened WsFrame

  /** XOR a payload with a repeating key, byte by byte into a new buffer. */
  method MaskBytes(data: seq<byte>, key: seq<byte>) returns (r: seq<byte>)
    requires |key| == 4
    ensures r == Masked(data, key)
  {
    var out := new byte[|data|];
    for i := 0 to |data|
      invariant forall k | 0 <= k < i :: out[k] == data[k] ^ key[k % 4]
    {
      out[i] := data[i] ^ key[i % 4];
    }
    r := out[..];
  }

  class WsFrameParser {
    var buf: seq<byte>
    var fragments: seq<seq<byte>>
    var fragmentOpcode: byte
    var isCompressed: bool
    var enableDeflate: bool
    const inflate: seq<byte> -> Option<seq<byte>>

    constructor (inflate: seq<byte> -> Option<seq<byte>>)
      ensures buf == [] && Asm() == FRESH && !enableDeflate && this.inflate == inflate
    {
      this.inflate := inflate;
      buf, fragments, fragmentOpcode, isCompressed, enableDeflate := [], [], 0, false, false;
    }

    function Asm(): Assembly
      reads this
    {
      Assembly(fragments, fragmentOpcode, isCompressed)
    }

    function Cfg(): Config
      reads this
    {
      Config(enableDeflate, inflate)
    }

    /** Feed bytes; returns every message completed so far and keeps only an incomplete frame. */
    method Push(chunk: seq<byte>) returns (out: seq<Message>)
      modifies this`buf, this`fragments, this`fragmentOpcode, this`isCompressed
      ensures Parsed(Asm(), buf, out) == Parse(Cfg(), old(Asm()), old(buf) + chunk)
      ensures NextFrame(buf).None?
    {
      hide Parse, NextFrame, Accept;
      buf := if |buf| > 0 then buf + chunk else chunk;
      out := [];
      assert buf == old(buf) + chunk;
      ghost var whole := Parse(Cfg(), Asm(), old(buf) + chunk);
      while true
        invariant var rest := Parse(Cfg(), Asm(), buf); whole == rest.(out := out + rest.out)
        decreases |buf|
      {
        var cut := TryCut();
        ParseStep(Cfg(), Asm(), buf);
        if cut.None? {
          break;
        }
        ghost var before, c, asm := out, Cfg(), Asm();
        buf := buf[cut.value.size..];
        var step := Take(cut.value.frame);
        out := out + step;
        ghost var rest := Parse(c, Accept(c, asm, cut.value.frame).asm, buf);
        assert before + (step + rest.out) == out + rest.out;
      }
      assert out + [] == out;
    }

    /** The header and payload reading of one loop iteration; None is each of the four early breaks. */
    method TryCut() returns (r: Option<Cut>)
      ensures r == NextFrame(buf)
    {
      hide FromBigEndian, Masked, IsMasked, Length7, Opcode, Fin, Rsv1;
      if |buf| < 2 {
        return None;
      }
      var b0, b1 := buf[0], buf[1];
      var len := Length7(b1);
      var offset := 2;
      if len == 126 {
        if |buf| < offset + 2 {
          return None;
        }
        len := FromBigEndian(buf[offset..offset + 2]);
        offset := offset + 2;
      } else if len == 127 {
        if |buf| < offset + 8 {
          return None;
        }
        len := FromBigEndian(buf[offset..offset + 8]);
        offset := offset + 8;
      }
      assert offset == 2 + ExtendedLength(b1) && len == PayloadLength(b1, buf[2..offset]);
      var key: seq<byte> := [];
      if IsMasked(b1) {
        if |buf| < offset + 4 {
          return None;
        }
        key := buf[offset..offset + 4];
        offset := offset + 4;
      }
      if |buf| < offset + len {
        return None;
      }
      var payload := buf[offset..offset + len];
      if key != [] {
        payload := MaskBytes(payload, key);
      }
      r := Some(Cut(Frame(Fin(b0), Rsv1(b0), Opcode(b0), payload), offset + len));
    }

    /** The state change of one loop iteration after the frame has been removed from the buffer. */
    method Take(f: Frame) returns (out: seq<Message>)
      modifies this`fragments, this`fragmentOpcode, this`isCompressed
      ensures Accepted(Asm(), out) == Accept(Cfg(), old(Asm()), f)
    {
      hide Concat, Finish;
      if f.opcode == 8 || f.opcode == 9 || f.opcode == 10 {
        var kind := if f.opcode == 8 then Close else if f.opcode == 9 then Ping else Pong;
        return [Message(kind, f.payload)];
      }
      if f.opcode == 0 {
        fragments := fragments + [f.payload];
      } else {
        fragments := [f.payload];
        fragmentOpcode := f.opcode;
        isCompressed := enableDeflate && f.rsv1;
      }
      out := [];
      if f.fin {
        var m := Flush();
        out := [m];
      }
    }

    /** The final fragment has come. */
    method Flush() returns (m: Message)
      modifies this`fragments
      ensures Asm() == old(Asm()).(fragments := [])
      ensures m == Message(DataKind(fragmentOpcode), Finish(Cfg(), isCompressed, Concat(old(fragments))))
    {
      hide Concat, Finish;
      var data := Concat(fragments);
      fragments := [];
      data := Finished(data);
      m := Message(if fragmentOpcode == 2 then Binary else Text, data);
    }

    /** A compressed body is inflated, or left as it is when inflating throws. */
    method Finished(data: seq<byte>) returns (r: seq<byte>)
      ensures r == Finish(Cfg(), isCompressed, data)
    {
      r := data;
      if isCompressed {
        match inflate(data + DEFLATE_TAIL)
        case Some(plain) => r := plain;
        case None =>
      }
    }
  }

  // ---- encoding one unfragmented frame ----

  /** The fixed key that masks injected client frames. */
  const INJECT_KEY: seq<byte> := [0xa1, 0xb2, 0xc3, 0xd4]

  /** Text is what holds no byte below the horizontal tab. */
  predicate ProbablyText(b: seq<byte>) {
    forall i | 0 <= i < |b| :: b[i] >= 0x09
  }

  method IsProbablyText(b: seq<byte>) returns (r: bool)
    ensures r == ProbablyText(b)
  {
    for k := 0 to |b|
      invariant forall i | 0 <= i < k :: b[i] >= 0x09
    {
      if b[k] == 0 || (b[k] < 0x09 && b[k] != 0x0a && b[k] != 0x0d) {
        return false;
      }
    }
    return true;
  }

  /** The length bytes encodeFrame writes: JavaScript's 32-bit shifts keep only the low 32 bits. */
  function EncoderLength(n: nat): (r: seq<byte>)
    ensures |r| >= 1
  {
    if n < 126 then [ToByte(n)]
    else if n < 0x1_0000 then [126] + BigEndian(n, 2)
    else [127, 0, 0, 0, 0] + BigEndian(n, 4)
  }

  function InjectedFrame(data: seq<byte>, opcode: byte): Frame {
    Frame(true, false, opcode, data)
  }

  function InjectKey(masked: bool): Option<seq<byte>> {
    if masked then Some(INJECT_KEY) else None
  }

  /** What encodeFrame puts on the wire: a frame, but for opcodes that spill into the bits before them. */
  function Encoded(data: seq<byte>, masked: bool, opcode: byte): seq<byte> {
    [0x80 | opcode] + WireWith(InjectedFrame(data, opcode), InjectKey(masked), EncoderLength(|data|))[1..]
  }

  method LengthField(len: nat) returns (lenBytes: seq<byte>)
    ensures lenBytes == EncoderLength(len)
  {
    hide ToByte, BigEndian;
    if len < 126 {
      lenBytes := [ToByte(len)];
    } else if len < 65536 {
      lenBytes := [126, ToByte(len / 0x100), ToByte(len)];
      TwoBytes(len);
    } else {
      lenBytes := [127, 0, 0, 0, 0,
                   ToByte(len / 0x100_0000), ToByte(len / 0x1_0000), ToByte(len / 0x100), ToByte(len)];
      FourBytes(len);
    }
  }

  method EncodeFrame(data: seq<byte>, masked: bool, opcode: Option<byte>) returns (r: seq<byte>)
    ensures r == Encoded(data, masked, match opcode
                                       case Some(op) => op
                                       case None => if ProbablyText(data) then 1 else 2)
  {
    hide Masked, EncoderLength, Encoded, ProbablyText;
    var op;
    if opcode.Some? {
      op := opcode.value;
    } else {
      var text := IsProbablyText(data);
      op := if text then 1 else 2;
    }
    var lenBytes := LengthField(|data|);
    var header := [0x80 | op, (if masked then 0x80 else 0) | lenBytes[0]] + lenBytes[1..];
    EncodedLayout(data, masked, op);
    if !masked {
      r := header + data;
    } else {
      var body := MaskBytes(data, INJECT_KEY);
      r := header + INJECT_KEY + body;
    }
  }

  lemma OrZero(b: byte)
    ensures (0 as byte) | b == b
  {}

  lemma EncodedLayout(data: seq<byte>, masked: bool, op: byte)
    ensures var lenBytes := EncoderLength(|data|);
            var header := [0x80 | op, (if masked then 0x80 else 0) | lenBytes[0]] + lenBytes[1..];
            Encoded(data, masked, op)
            == if masked then header + INJECT_KEY + Masked(data, INJECT_KEY) else header + data
  {
    hide Masked, EncoderLength, FirstByte;
    hide ToByte, BigEndian;
    OrZero(EncoderLength(|data|)[0]);
  }

  /** A short injected frame as bytes: the key is fixed, and the payload XORed with it. */
  lemma InjectedBytes(data: seq<byte>, op: byte)
    requires |data| < 126 && op < 16
    ensures var w := Encoded(data, true, op);
            |w| == 6 + |data| && Value(w[0]) == 128 + Value(op) && Value(w[1]) == 128 + |data| &&
            w[2..6] == [0xa1, 0xb2, 0xc3, 0xd4] &&
            forall i | 0 <= i < |data| :: w[6 + i] == data[i] ^ [0xa1, 0xb2, 0xc3, 0xd4][i % 4]
  {
    hide ToByte, Value, BigEndian, Encoded, Masked;
    var n := ToByte(|data|);
    ShortLength(data);
    EncodedLayout(data, true, op);
    SmallOpcode(op);
    HighBit(op);
    HighBit(n);
    MaskedBytes(data);
    KeyedLayout(0x80 | op, 0x80 | n, INJECT_KEY, Masked(data, INJECT_KEY));
  }

  lemma InjectedPlainBytes(data: seq<byte>, op: byte)
    requires |data| < 126 && op < 16
    ensures var w := Encoded(data, false, op);
            |w| == 2 + |data| && Value(w[0]) == 128 + Value(op) && Value(w[1]) == |data| && w[2..] == data
  {
    hide ToByte, Value, BigEndian, Encoded, Masked;
    var n := ToByte(|data|);
    ShortLength(data);
    EncodedLayout(data, false, op);
    SmallOpcode(op);
    HighBit(op);
    assert (0 as byte) | n == n;
  }

  /** The length bytes: one below 126, the mark 126 and two below 65536, and the mark 127 with four zeros and four from
      there on, each with the high byte first. */
  lemma LengthInBytes(n: nat)
    ensures n < 126 ==> EncoderLength(n) == [ToByte(n)]
    ensures 126 <= n < 65536 ==> EncoderLength(n) == [126, ToByte(n / 256), ToByte(n)]
    ensures n >= 65536 ==>
              EncoderLength(n)
              == [127, 0, 0, 0, 0, ToByte(n / 0x100_0000), ToByte(n / 0x1_0000), ToByte(n / 0x100), ToByte(n)]
  {
    hide ToByte, BigEndian;
    TwoBytes(n);
    FourBytes(n);
  }

  lemma ShortLength(data: seq<byte>)
    requires |data| < 126
    ensures EncoderLength(|data|) == [ToByte(|data|)] && [ToByte(|data|)][1..] == []
    ensures Value(ToByte(|data|)) == |data|
  {
    hide ToByte, Value;
    ToByteValue(|data|);
  }

  lemma SmallOpcode(op: byte)
    requires op < 16
    ensures Value(op) < 16
  {}

  lemma KeyedLayout(a: byte, b: byte, key: seq<byte>, body: seq<byte>)
    requires |key| == 4
    ensures var w := [a, b] + [] + key + body;
            |w| == 6 + |body| && w[0] == a && w[1] == b && w[2..6] == key &&
            forall i | 0 <= i < |body| :: w[6 + i] == body[i]
  {}

  lemma MaskedBytes(data: seq<byte>)
    ensures forall i | 0 <= i < |data| :: Masked(data, INJECT_KEY)[i] == data[i] ^ [0xa1, 0xb2, 0xc3, 0xd4][i % 4]
  {}

  lemma HighBit(n: byte)
    requires Value(n) < 128
    ensures Value(0x80 | n) == 128 + Value(n)
  {
    SevenBits(n);
    assert (0x80 | n) as byte == 0x80 + n;
  }

  lemma SevenBits(n: byte)
    requires Value(n) < 128
    ensures n < 0x80
  {}

  lemma EncodedIsWire(data: seq<byte>, masked: bool, op: byte)
    requires op < 16
    ensures Encoded(data, masked, op) == WireWith(InjectedFrame(data, op), InjectKey(masked), EncoderLength(|data|))
  {
    hide Masked, EncoderLength;
    assert FirstByte(InjectedFrame(data, op)) == 0x80 | op by {
      assert (0x80 | 0 | (op & 0x0f)) as byte == 0x80 | op;
    }
  }

  lemma FourBitOpcode(buf: seq<byte>)
    ensures NextFrame(buf).Some? ==> NextFrame(buf).value.frame.opcode < 16
  {
    hide Unmask, PayloadLength, ExtendedLength, KeyLength;
    if |buf| >= 2 {
      LowBits(buf[0]);
    }
  }

  lemma LowBits(b: byte)
    ensures Opcode(b) < 16
  {}

  lemma TwoBytes(n: nat)
    ensures BigEndian(n, 2) == [ToByte(n / 0x100), ToByte(n)]
  {
    hide ToByte;
    assert BigEndian(n / 256, 1) == [ToByte(n / 256)];
  }

  lemma FourBytes(n: nat)
    ensures BigEndian(n, 4) == [ToByte(n / 0x100_0000), ToByte(n / 0x1_0000), ToByte(n / 0x100), ToByte(n)]
  {
    hide ToByte;
    TwoBytes(n / 0x1_0000);
    assert n / 256 / 256 == n / 0x1_0000;
    assert BigEndian(n / 256, 3) == BigEndian(n / 0x1_0000, 2) + [ToByte(n / 256)];
    assert n / 0x1_0000 / 256 == n / 0x100_0000;
  }

  /** The length the receiver reads: exact below 2^32, strictly smaller from there on. */
  lemma EncoderLengthValue(n: nat)
    ensures ValidLength(EncoderLength(n))
    ensures DeclaredLength(EncoderLength(n)) <= n
    ensures DeclaredLength(EncoderLength(n)) == n <==> n < 0x1_0000_0000
  {
    hide FromBigEndian, BigEndian, ToByte, Value, ExtendedLength, Pow256;
    LengthMarks();
    if n < 126 {
      OneByteLength(n);
    } else if n < 0x1_0000 {
      BigEndianRoundTrip(n, 2);
      Pow256Two();
      assert EncoderLength(n)[1..] == BigEndian(n, 2);
    } else {
      BigEndianRoundTrip(n, 4);
      Pow256Four();
      LeadingZeros(4, BigEndian(n, 4));
      assert seq(4, _ => 0 as byte) == [0, 0, 0, 0];
      assert EncoderLength(n)[1..] == [0, 0, 0, 0] + BigEndian(n, 4);
    }
  }

  lemma Pow256Four()
    ensures Pow256(4) == 0x1_0000_0000
  {
    assert Pow256(2) == 0x1_0000;
    assert Pow256(3) == 0x100_0000;
  }

  /** encodeFrame and the parser agree exactly on four-bit opcodes and payloads below 2^32 bytes: there the
      frame is read back whole; from 2^32 on the receiver cuts it short, and a wider opcode loses its high bits. */
  lemma EncodeFrameExact(data: seq<byte>, masked: bool, opcode: byte)
    ensures NextFrame(Encoded(data, masked, opcode))
            == Some(Cut(InjectedFrame(data, opcode), |Encoded(data, masked, opcode)|))
            <==> |data| < 0x1_0000_0000 && opcode < 16
  {
    hide NextFrame, Masked, DeclaredLength, ValidLength, WireWith;
    FourBitOpcode(Encoded(data, masked, opcode));
    if opcode < 16 {
      var length := EncoderLength(|data|);
      var f := InjectedFrame(data, opcode);
      EncoderLengthValue(|data|);
      EncodedIsWire(data, masked, opcode);
      CutWire(f, InjectKey(masked), length, []);
      assert Encoded(data, masked, opcode) + [] == Encoded(data, masked, opcode);
      assert data[..|data|] == data;
    }
  }
}
