/** A whole WebSocket conversation: messages split into fragments with control frames in between,
    encoded by any conforming sender, cut into any chunks, and captured by the parser. */
module WsStream {
  import opened Prelude
  import opened WsFrame

  type Signal = k: Kind | k != Text && k != Binary witness Close

  datatype Control = Control(kind: Signal, data: seq<byte>)

  /** Section 11.8 of RFC 6455. */
  function OpcodeOf(kind: Kind): byte {
    match kind
    case Text => 1
    case Binary => 2
    case Close => 8
    case Ping => 9
    case Pong => 10
  }

  /** A later fragment of a message, and the control frames sent before it. */
  datatype Piece = Piece(before: seq<Control>, payload: seq<byte>)

  /** What a sender sends: a control frame, or a data message in one or more fragments. */
  datatype Item =
    | Single(control: Control)
    | Data(binary: bool, rsv1: bool, first: seq<byte>, rest: seq<Piece>)

  predicate ValidControl(c: Control) {
    |c.data| < Pow256(8)
  }

  predicate ValidPiece(p: Piece) {
    (forall c | c in p.before :: ValidControl(c)) && |p.payload| < Pow256(8)
  }

  predicate ValidItem(item: Item) {
    match item
    case Single(c) => ValidControl(c)
    case Data(_, _, first, rest) => |first| < Pow256(8) && forall p | p in rest :: ValidPiece(p)
  }

  // ---- frames ----

  function ControlFrame(c: Control): Frame {
    Frame(true, false, OpcodeOf(c.kind), c.data)
  }

  function ControlFrames(cs: seq<Control>): (r: seq<Frame>)
    ensures |r| == |cs|
  {
    if cs == [] then [] else [ControlFrame(cs[0])] + ControlFrames(cs[1..])
  }

  /** Continuation frames; the last one carries the FIN bit. */
  function PieceFrames(ps: seq<Piece>): seq<Frame> {
    if ps == [] then []
    else ControlFrames(ps[0].before) + [Frame(|ps| == 1, false, 0, ps[0].payload)] + PieceFrames(ps[1..])
  }

  function ItemFrames(item: Item): seq<Frame> {
    match item
    case Single(c) => [ControlFrame(c)]
    case Data(binary, rsv1, first, rest) =>
      [Frame(rest == [], rsv1, if binary then 2 else 1, first)] + PieceFrames(rest)
  }

  function Frames(items: seq<Item>): seq<Frame> {
    if items == [] then [] else ItemFrames(items[0]) + Frames(items[1..])
  }

  predicate ValidFrame(f: Frame) {
    f.opcode < 16 && |f.payload| < Pow256(8)
  }

  // ---- what the receiver should report ----

  function ControlMessages(cs: seq<Control>): seq<Message> {
    if cs == [] then []
    else [Message(cs[0].kind, cs[0].data)] + ControlMessages(cs[1..])
  }

  function PieceControls(ps: seq<Piece>): seq<Message> {
    if ps == [] then [] else ControlMessages(ps[0].before) + PieceControls(ps[1..])
  }

  function Payloads(ps: seq<Piece>): seq<seq<byte>> {
    if ps == [] then [] else [ps[0].payload] + Payloads(ps[1..])
  }

  /** The message a data item carries: its fragments joined, inflated when the first frame says so. */
  function DataMessage(c: Config, item: Item): Message
    requires item.Data?
  {
    Message(if item.binary then Binary else Text,
            Finish(c, c.deflate && item.rsv1, Concat([item.first] + Payloads(item.rest))))
  }

  function ItemMessages(c: Config, item: Item): seq<Message> {
    match item
    case Single(ctl) => ControlMessages([ctl])
    case Data(_, _, _, rest) => PieceControls(rest) + [DataMessage(c, item)]
  }

  function Messages(c: Config, items: seq<Item>): seq<Message> {
    if items == [] then [] else ItemMessages(c, items[0]) + Messages(c, items[1..])
  }

  // ---- the assembler on frame lists ----

  function Feed(c: Config, asm: Assembly, frames: seq<Frame>): Accepted
    decreases |frames|
  {
    if frames == [] then Accepted(asm, [])
    else
      var step := Accept(c, asm, frames[0]);
      var rest := Feed(c, step.asm, frames[1..]);
      Accepted(rest.asm, step.out + rest.out)
  }

  lemma {:induction false} FeedAppend(c: Config, asm: Assembly, a: seq<Frame>, b: seq<Frame>)
    ensures var p := Feed(c, asm, a);
            var q := Feed(c, p.asm, b);
            Feed(c, asm, a + b) == Accepted(q.asm, p.out + q.out)
    decreases |a|
  {
    hide Accept;
    if a == [] {
      assert a + b == b;
    } else {
      var step := Accept(c, asm, a[0]);
      assert (a + b)[1..] == a[1..] + b;
      FeedAppend(c, step.asm, a[1..], b);
      var p := Feed(c, step.asm, a[1..]);
      var q := Feed(c, p.asm, b);
      assert step.out + (p.out + q.out) == (step.out + p.out) + q.out;
    }
  }

  /** Control frames pass through without touching the message being assembled. */
  lemma {:induction false} FeedControls(c: Config, asm: Assembly, cs: seq<Control>)
    requires forall x | x in cs :: ValidControl(x)
    ensures Feed(c, asm, ControlFrames(cs)) == Accepted(asm, ControlMessages(cs))
    decreases |cs|
  {
    hide Concat, Finish;
    if cs != [] {
      assert ValidControl(cs[0]);
      FeedControls(c, asm, cs[1..]);
      assert ControlFrames(cs)[1..] == ControlFrames(cs[1..]);
    }
  }

  /** A continuation frame extends the message under way, and finishes it when it is the last one. */
  lemma FeedContinuation(c: Config, asm: Assembly, fin: bool, payload: seq<byte>)
    ensures var next := asm.(fragments := asm.fragments + [payload]);
            Feed(c, asm, [Frame(fin, false, 0, payload)])
            == if fin
               then Accepted(next.(fragments := []),
                             [Message(DataKind(asm.opcode), Finish(c, asm.compressed, Concat(next.fragments)))])
               else Accepted(next, [])
  {
    hide Concat, Finish;
    var f := Frame(fin, false, 0, payload);
    assert [f][1..] == [];
    assert Feed(c, asm, [f]) == Accept(c, asm, f) by {
      var step := Accept(c, asm, f);
      assert step.out + [] == step.out;
    }
  }

  lemma {:induction false} FeedPieces(c: Config, asm: Assembly, ps: seq<Piece>)
    requires ps != [] && forall p | p in ps :: ValidPiece(p)
    ensures Feed(c, asm, PieceFrames(ps))
            == Accepted(asm.(fragments := []),
                        PieceControls(ps)
                        + [Message(DataKind(asm.opcode),
                                   Finish(c, asm.compressed, Concat(asm.fragments + Payloads(ps))))])
    decreases |ps|
  {
    hide Concat, Finish, DataKind, Feed, ControlFrames, ControlMessages, IsControl, Pow256;
    assert ValidPiece(ps[0]);
    var controls := ControlFrames(ps[0].before);
    var last := [Frame(|ps| == 1, false, 0, ps[0].payload)];
    var tail := PieceFrames(ps[1..]);
    FeedControls(c, asm, ps[0].before);
    FeedContinuation(c, asm, |ps| == 1, ps[0].payload);
    FeedAppend(c, asm, controls, last);
    FeedAppend(c, asm, controls + last, tail);
    assert Payloads(ps) == [ps[0].payload] + Payloads(ps[1..]);
    var passed := ControlMessages(ps[0].before);
    assert passed + [] == passed;
    if |ps| == 1 {
      FeedNone(c, asm.(fragments := []));
      assert Payloads(ps) == [ps[0].payload];
    } else {
      var next := asm.(fragments := asm.fragments + [ps[0].payload]);
      FeedPieces(c, next, ps[1..]);
      assert asm.fragments + Payloads(ps) == next.fragments + Payloads(ps[1..]);
    }
  }

  lemma FeedNone(c: Config, asm: Assembly)
    ensures Feed(c, asm, []) == Accepted(asm, [])
  {}

  /** One item, from any state of the assembler in which no message is under way. */
  lemma FeedItem(c: Config, asm: Assembly, item: Item)
    requires ValidItem(item) && asm.fragments == []
    ensures var r := Feed(c, asm, ItemFrames(item));
            r.out == ItemMessages(c, item) && r.asm.fragments == []
  {
    hide Concat, Finish, DataKind;
    match item
    case Single(ctl) =>
      FeedControls(c, asm, [ctl]);
      assert ControlFrames([ctl]) == [ControlFrame(ctl)];
    case Data(binary, rsv1, first, rest) =>
      var opcode := if binary then 2 else 1;
      DataOpcode(binary);
      var head := [Frame(rest == [], rsv1, opcode, first)];
      var next := Assembly([first], opcode, c.deflate && rsv1);
      FeedFirst(c, asm, rest == [], rsv1, opcode, first);
      FeedAppend(c, asm, head, PieceFrames(rest));
      if rest == [] {
        assert [first] + Payloads(rest) == [first];
        assert PieceControls(rest) + [DataMessage(c, item)] == [DataMessage(c, item)];
        assert [DataMessage(c, item)] + [] == [DataMessage(c, item)];
      } else {
        FeedPieces(c, next, rest);
      }
  }

  lemma DataOpcode(binary: bool)
    ensures DataKind(if binary then 2 else 1) == if binary then Binary else Text
  {}

  lemma FeedFirst(c: Config, asm: Assembly, fin: bool, rsv1: bool, opcode: byte, payload: seq<byte>)
    requires opcode == 1 || opcode == 2
    ensures var next := Assembly([payload], opcode, c.deflate && rsv1);
            Feed(c, asm, [Frame(fin, rsv1, opcode, payload)])
            == if fin
               then Accepted(next.(fragments := []),
                             [Message(DataKind(opcode), Finish(c, next.compressed, Concat([payload])))])
               else Accepted(next, [])
  {
    hide Concat, Finish, DataKind;
    var f := Frame(fin, rsv1, opcode, payload);
    assert [f][1..] == [];
    var step := Accept(c, asm, f);
    assert step.out + [] == step.out;
  }

  lemma {:induction false} FeedItems(c: Config, asm: Assembly, items: seq<Item>)
    requires (forall i | i in items :: ValidItem(i)) && asm.fragments == []
    ensures var r := Feed(c, asm, Frames(items));
            r.out == Messages(c, items) && r.asm.fragments == []
    decreases |items|
  {
    hide ItemFrames, ItemMessages, ValidItem, Accept;
    if items != [] {
      FeedItem(c, asm, items[0]);
      var asm1 := Feed(c, asm, ItemFrames(items[0])).asm;
      FeedItems(c, asm1, items[1..]);
      FeedAppend(c, asm, ItemFrames(items[0]), Frames(items[1..]));
    }
  }

  // ---- bytes ----

  predicate ValidKeys(keys: seq<Option<seq<byte>>>) {
    forall k | k in keys :: k.Some? ==> |k.value| == 4
  }

  /** The byte stream of a frame list; every frame has a mask key of its own, or none. */
  function WireAll(frames: seq<Frame>, keys: seq<Option<seq<byte>>>): seq<byte>
    requires |keys| == |frames| && ValidKeys(keys)
  {
    if frames == [] then [] else Wire(frames[0], keys[0]) + WireAll(frames[1..], keys[1..])
  }

  /** The parser recovers exactly the frame list, whatever the masks. */
  lemma {:induction false} ParseWire(c: Config, asm: Assembly, frames: seq<Frame>, keys: seq<Option<seq<byte>>>)
    requires |keys| == |frames| && ValidKeys(keys)
    requires forall f | f in frames :: ValidFrame(f)
    ensures var r := Feed(c, asm, frames);
            Parse(c, asm, WireAll(frames, keys)) == Parsed(r.asm, [], r.out)
    decreases |frames|
  {
    hide NextFrame, Accept, Wire, Parse, Pow256;
    var w := WireAll(frames, keys);
    ParseStep(c, asm, w);
    if frames == [] {
      NothingYet();
    } else {
      var rest := WireAll(frames[1..], keys[1..]);
      assert ValidFrame(frames[0]);
      WireRoundTrip(frames[0], keys[0], rest);
      assert w[|Wire(frames[0], keys[0])|..] == rest;
      ParseWire(c, Accept(c, asm, frames[0]).asm, frames[1..], keys[1..]);
    }
  }

  lemma NothingYet()
    ensures NextFrame([]).None?
  {}

  lemma {:induction false} FramesValid(items: seq<Item>)
    requires forall i | i in items :: ValidItem(i)
    ensures forall f | f in Frames(items) :: ValidFrame(f)
    decreases |items|
  {
    hide Pow256;
    if items != [] {
      assert ValidItem(items[0]);
      FramesValid(items[1..]);
      if items[0].Data? {
        PieceFramesValid(items[0].rest);
      }
    }
  }

  lemma {:induction false} ControlFramesValid(cs: seq<Control>)
    requires forall x | x in cs :: ValidControl(x)
    ensures forall f | f in ControlFrames(cs) :: ValidFrame(f)
    decreases |cs|
  {
    hide Pow256;
    if cs != [] {
      assert ValidControl(cs[0]);
      ControlFramesValid(cs[1..]);
    }
  }

  lemma {:induction false} PieceFramesValid(ps: seq<Piece>)
    requires forall p | p in ps :: ValidPiece(p)
    ensures forall f | f in PieceFrames(ps) :: ValidFrame(f)
    decreases |ps|
  {
    hide Pow256;
    if ps != [] {
      assert ValidPiece(ps[0]);
      ControlFramesValid(ps[0].before);
      PieceFramesValid(ps[1..]);
    }
  }

  /** The conversation theorem. Whatever items are sent, however each message is fragmented, whatever
      control frames come in between, whatever the masks and wherever the stream is cut into chunks:
      the parser reports exactly the messages sent, in order, and keeps nothing back. */
  lemma CaptureIsExact(c: Config, asm: Assembly, items: seq<Item>,
                       keys: seq<Option<seq<byte>>>, chunks: seq<seq<byte>>)
    requires (forall i | i in items :: ValidItem(i)) && asm.fragments == []
    requires |keys| == |Frames(items)| && ValidKeys(keys)
    requires Concat(chunks) == WireAll(Frames(items), keys)
    ensures var r := ParseAll(c, asm, [], chunks);
            r.out == Messages(c, items) && r.buf == [] && r.asm.fragments == []
  {
    hide ParseAll, Parse, NextFrame, WireAll, Feed, Messages, Frames, ValidItem;
    NothingYet();
    ParseAllIsParse(c, asm, [], chunks);
    assert [] + Concat(chunks) == Concat(chunks);
    FramesValid(items);
    ParseWire(c, asm, Frames(items), keys);
    FeedItems(c, asm, items);
  }

  // ---- the original messages, separated from the control traffic ----

  predicate IsData(m: Message) {
    m.kind == Text || m.kind == Binary
  }

  /** The messages that are data (or, when "data" is false, control frames), in order. */
  function Only(data: bool, ms: seq<Message>): seq<Message> {
    if ms == [] then [] else (if IsData(ms[0]) == data then [ms[0]] else []) + Only(data, ms[1..])
  }

  lemma {:induction false} OnlyAppend(data: bool, a: seq<Message>, b: seq<Message>)
    ensures Only(data, a + b) == Only(data, a) + Only(data, b)
    decreases |a|
  {
    hide IsData;
    if a == [] {
      assert a + b == b;
    } else {
      assert (a + b)[0] == a[0] && (a + b)[1..] == a[1..] + b;
      OnlyAppend(data, a[1..], b);
    }
  }

  lemma OnlyOne(data: bool, m: Message)
    ensures Only(data, [m]) == if IsData(m) == data then [m] else []
  {
    assert [m][1..] == [];
  }

  function OrElse(a: Option<seq<byte>>, b: seq<byte>): seq<byte> {
    match a case Some(x) => x case None => b
  }

  /** The item carries this message: the joined fragments are its bytes, or, when compression is in use for it, a
      deflated form of its bytes without the four-byte tail; what cannot be inflated is taken as it is. */
  predicate Carries(c: Config, item: Item, m: Message) {
    item.Data? && m.kind == (if item.binary then Binary else Text) &&
    var wire := Concat([item.first] + Payloads(item.rest));
    m.data == if c.deflate && item.rsv1 then OrElse(c.inflate(wire + [0, 0, 0xff, 0xff]), wire) else wire
  }

  /** The data items, in order, carry the given messages. */
  predicate CarryAll(c: Config, items: seq<Item>, ms: seq<Message>)
    decreases |items|
  {
    if items == [] then ms == []
    else if items[0].Single? then CarryAll(c, items[1..], ms)
    else ms != [] && Carries(c, items[0], ms[0]) && CarryAll(c, items[1..], ms[1..])
  }

  /** The control frames of a conversation, in sending order. */
  function ControlTraffic(items: seq<Item>): seq<Message> {
    if items == [] then [] else ItemControls(items[0]) + ControlTraffic(items[1..])
  }

  function ItemControls(item: Item): seq<Message> {
    match item
    case Single(ctl) => ControlMessages([ctl])
    case Data(_, _, _, rest) => PieceControls(rest)
  }

  lemma {:induction false} ControlsAreControls(data: bool, cs: seq<Control>)
    ensures Only(data, ControlMessages(cs)) == if data then [] else ControlMessages(cs)
    decreases |cs|
  {
    if cs != [] {
      ControlsAreControls(data, cs[1..]);
    }
  }

  lemma {:induction false} PieceControlsAreControls(data: bool, ps: seq<Piece>)
    ensures Only(data, PieceControls(ps)) == if data then [] else PieceControls(ps)
    decreases |ps|
  {
    hide Only, ControlMessages;
    if ps == [] {
      OnlyNone(data);
    } else {
      ControlsAreControls(data, ps[0].before);
      PieceControlsAreControls(data, ps[1..]);
      OnlyAppend(data, ControlMessages(ps[0].before), PieceControls(ps[1..]));
    }
  }

  lemma OnlyNone(data: bool)
    ensures Only(data, []) == []
  {}

  lemma ItemSplit(data: bool, c: Config, item: Item)
    ensures Only(data, ItemMessages(c, item))
            == if !data then ItemControls(item) else if item.Data? then [DataMessage(c, item)] else []
  {
    hide Only, DataMessage, PieceControls, ControlMessages;
    match item
    case Single(ctl) =>
      ControlsAreControls(data, [ctl]);
    case Data(_, _, _, rest) =>
      var m := DataMessage(c, item);
      assert IsData(m) by {
        DataMessageIsData(c, item);
      }
      PieceControlsAreControls(data, rest);
      OnlyAppend(data, PieceControls(rest), [m]);
      OnlyOne(data, m);
  }

  lemma DataMessageIsData(c: Config, item: Item)
    requires item.Data?
    ensures IsData(DataMessage(c, item))
  {}

  lemma {:induction false} MessagesCarried(c: Config, items: seq<Item>, ms: seq<Message>)
    requires CarryAll(c, items, ms)
    ensures Only(true, Messages(c, items)) == ms
    ensures Only(false, Messages(c, items)) == ControlTraffic(items)
    decreases |items|
  {
    hide Only, ItemMessages, DataMessage, Carries;
    if items == [] {
      OnlyNone(true);
      OnlyNone(false);
    } else {
      OnlyAppend(true, ItemMessages(c, items[0]), Messages(c, items[1..]));
      OnlyAppend(false, ItemMessages(c, items[0]), Messages(c, items[1..]));
      ItemSplit(true, c, items[0]);
      ItemSplit(false, c, items[0]);
      if items[0].Single? {
        MessagesCarried(c, items[1..], ms);
      } else {
        CarriedMessage(c, items[0], ms[0]);
        MessagesCarried(c, items[1..], ms[1..]);
        assert [ms[0]] + ms[1..] == ms;
      }
    }
  }

  lemma CarriedMessage(c: Config, item: Item, m: Message)
    requires Carries(c, item, m)
    ensures DataMessage(c, item) == m
  {
    hide Concat, Payloads;
  }

  /** The same theorem seen from the sender: the data messages captured are the original messages, the
      control messages captured are the control frames in the order they were sent, and there is
      nothing else. */
  lemma CaptureRecoversOriginals(c: Config, items: seq<Item>, originals: seq<Message>,
                                 keys: seq<Option<seq<byte>>>, chunks: seq<seq<byte>>)
    requires forall i | i in items :: ValidItem(i)
    requires CarryAll(c, items, originals)
    requires |keys| == |Frames(items)| && ValidKeys(keys)
    requires Concat(chunks) == WireAll(Frames(items), keys)
    ensures var out := ParseAll(c, FRESH, [], chunks).out;
            Only(true, out) == originals && Only(false, out) == ControlTraffic(items)
  {
    hide ParseAll, WireAll, Messages, Frames, ValidItem, CarryAll;
    CaptureIsExact(c, FRESH, items, keys, chunks);
    MessagesCarried(c, items, originals);
  }

  // ---- one frame, byte by byte ----

  /** A message in one frame, or a control frame, whatever is being assembled, whatever follows and in whatever
      chunks it comes: the opcodes 8, 9 and 10 are close, ping and pong, 2 is binary, and any other is text. A
      compressed message is inflated with the four bytes of section 7.2.2 of RFC 7692 put back. */
  lemma OneFrame(c: Config, asm: Assembly, f: Frame, key: Option<seq<byte>>, rest: seq<byte>, chunks: seq<seq<byte>>)
    requires key.Some? ==> |key.value| == 4
    requires f.fin && 0 < f.opcode < 16 && |f.payload| < Pow256(8)
    requires Concat(chunks) == Wire(f, key) + rest
    ensures var out := ParseAll(c, asm, [], chunks).out;
            out != [] &&
            out[0].kind == (if f.opcode == 8 then Close else if f.opcode == 9 then Ping else if f.opcode == 10 then Pong
                            else if f.opcode == 2 then Binary else Text) &&
            out[0].data == (if c.deflate && f.rsv1 && f.opcode != 8 && f.opcode != 9 && f.opcode != 10
                            then OrElse(c.inflate(f.payload + [0, 0, 0xff, 0xff]), f.payload) else f.payload) &&
            out[1..] == Parse(c, Accept(c, asm, f).asm, rest).out
  {
    hide ParseAll, Parse, NextFrame, Wire, Concat, Pow256;
    NothingYet();
    ParseAllIsParse(c, asm, [], chunks);
    var w := Wire(f, key) + rest;
    assert [] + Concat(chunks) == w;
    WireRoundTrip(f, key, rest);
    ParseStep(c, asm, w);
    assert w[|Wire(f, key)|..] == rest;
    OneFragment(f.payload);
  }

  lemma OneFragment(payload: seq<byte>)
    ensures Concat([payload]) == payload
  {
    assert [payload][1..] == [];
  }

  /** The bytes of a short frame: FIN is worth 128 and RSV1 64, the mask bit 128 before the length, and the payload is
      XORed with the repeated key. */
  lemma FrameBytes(f: Frame, key: Option<seq<byte>>)
    requires key.Some? ==> |key.value| == 4
    requires f.opcode < 16 && |f.payload| < 126
    ensures var w := Wire(f, key);
            |w| == 2 + (if key.Some? then 4 else 0) + |f.payload| &&
            Value(w[0]) == (if f.fin then 128 else 0) + (if f.rsv1 then 64 else 0) + Value(f.opcode) &&
            Value(w[1]) == (if key.Some? then 128 else 0) + |f.payload| &&
            (key.None? ==> w[2..] == f.payload) &&
            (key.Some? ==> w[2..6] == key.value &&
                           forall i | 0 <= i < |f.payload| :: w[6 + i] == f.payload[i] ^ key.value[i % 4])
  {
    hide ToByte, BigEndian, FirstByte, Value;
    FirstByteValue(f);
    ToByteValue(|f.payload|);
    MaskedLength(ToByte(|f.payload|));
    assert LengthBytes(|f.payload|)[1..] == [];
  }

  lemma FirstByteValue(f: Frame)
    requires f.opcode < 16
    ensures Value(FirstByte(f)) == (if f.fin then 128 else 0) + (if f.rsv1 then 64 else 0) + Value(f.opcode)
  {
    assert f.opcode & 0x0f == f.opcode;
    assert FirstByte(f) == (if f.fin then 128 else 0) + (if f.rsv1 then 64 else 0) + f.opcode;
    SumOfBits(f.fin, f.rsv1, f.opcode);
  }

  lemma SumOfBits(a: bool, b: bool, o: byte)
    requires o < 16
    ensures Value((if a then 128 else 0) + (if b then 64 else 0) + o)
            == (if a then 128 else 0) + (if b then 64 else 0) + Value(o)
  {}

  lemma MaskedLength(n: byte)
    requires Value(n) < 126
    ensures Value(0x80 | n) == 128 + Value(n)
  {
    SmallByte(n);
    assert (0x80 | n) as byte == 0x80 + n;
  }
}
