/** The upstream side of a relayed WebSocket (src/core/websocket.ts): every byte goes on to the client
    untouched, the handshake response is kept out of the frame parser, and the rest is captured. */
module WsRelay {
  import opened Prelude
  import opened Text
  import opened WsFrame
  import opened WsParser

  /** A header line that turns compression on. */
  predicate IsDeflateLine(line: string) {
    match IndexOf(line, ":")
    case None => false
    case Some(colon) =>
      Lower(Trim(line[..colon])) == "sec-websocket-extensions" &&
      Contains(Trim(line[colon + 1..]), "permessage-deflate")
  }

  predicate AgreesToDeflate(head: string) {
    var lines := Split(head, CRLF);
    exists i | 0 <= i < |lines| :: IsDeflateLine(lines[i])
  }

  /** Compression is on for exactly the heads with a line that names the extensions header, in any spelling and with any
      white space around it, and "permessage-deflate" somewhere in its value. */
  lemma DeflateIff(head: string)
    ensures var lines := Split(head, "\r\n");
            AgreesToDeflate(head)
            <==> exists i | 0 <= i < |lines| ::
                   var colon := IndexOf(lines[i], ":");
                   colon.Some? && Spelled(Trim(lines[i][..colon.value]), "sec-websocket-extensions") &&
                   IndexOf(Trim(lines[i][colon.value + 1..]), "permessage-deflate").Some?
  {
    hide Split, IndexOf, Trim, IsDeflateLine, Spelled;
    var lines := Split(head, "\r\n");
    forall i | 0 <= i < |lines|
      ensures IsDeflateLine(lines[i])
              <==> var colon := IndexOf(lines[i], ":");
                   colon.Some? && Spelled(Trim(lines[i][..colon.value]), "sec-websocket-extensions") &&
                   IndexOf(Trim(lines[i][colon.value + 1..]), "permessage-deflate").Some?
    {
      DeflateLineIff(lines[i]);
    }
  }

  lemma DeflateLineIff(line: string)
    ensures IsDeflateLine(line)
            <==> var colon := IndexOf(line, ":");
                 colon.Some? && Spelled(Trim(line[..colon.value]), "sec-websocket-extensions") &&
                 IndexOf(Trim(line[colon.value + 1..]), "permessage-deflate").Some?
  {
    hide IndexOf, Trim, Lower, Spelled;
    if IndexOf(line, ":").Some? {
      ColonBound(line);
      LowerSpelled(Trim(line[..IndexOf(line, ":").value]), "sec-websocket-extensions");
    }
  }

  lemma ColonBound(line: string)
    ensures IndexOf(line, ":").Some? ==> IndexOf(line, ":").value < |line|
  {}

  /** The libraries the relay calls: UTF-8 decoding and raw inflate. */
  datatype Codecs = Codecs(utf8: seq<byte> -> string, inflate: seq<byte> -> Option<seq<byte>>)

  datatype Relay = Relay(written: seq<byte>, handshakeDone: bool, handshakeBuf: seq<byte>,
                         config: Config, asm: Assembly, buf: seq<byte>, captured: seq<Message>)

  function Start(codecs: Codecs): Relay {
    Relay([], false, [], Config(false, codecs.inflate), FRESH, [], [])
  }

  function Captured(r: Relay, bytes: seq<byte>): Relay {
    var p := Parse(r.config, r.asm, r.buf + bytes);
    r.(asm := p.asm, buf := p.buf, captured := r.captured + p.out)
  }

  /** One chunk from the origin. */
  function OnChunk(codecs: Codecs, r: Relay, chunk: seq<byte>): Relay {
    var relayed := r.(written := r.written + chunk);
    if r.handshakeDone then Captured(relayed, chunk)
    else
      var head := r.handshakeBuf + chunk;
      match IndexOf(head, HEAD_END)
      case None => relayed.(handshakeBuf := head)
      case Some(at) =>
        var deflate := AgreesToDeflate(codecs.utf8(head[..at]));
        Captured(relayed.(handshakeDone := true, handshakeBuf := head, config := Config(deflate, codecs.inflate)),
                 head[at + 4..])
  }

  function Run(codecs: Codecs, r: Relay, chunks: seq<seq<byte>>): Relay
    decreases |chunks|
  {
    if chunks == [] then r else Run(codecs, OnChunk(codecs, r, chunks[0]), chunks[1..])
  }

  /** What the relay must look like after "stream" has arrived, with no mention of chunks: the stream is
      passed on verbatim, nothing is captured before the first blank line, and from there on the capture
      is the frame parse of the rest, with compression as the handshake head says. */
  ghost predicate Reflects(codecs: Codecs, r: Relay, stream: seq<byte>) {
    r.written == stream &&
    match IndexOf(stream, HEAD_END)
    case None => !r.handshakeDone && r.handshakeBuf == stream && r.captured == [] &&
                 r.asm == FRESH && r.buf == []
    case Some(at) => r.handshakeDone &&
                     r.config == Config(AgreesToDeflate(codecs.utf8(stream[..at])), codecs.inflate) &&
                     Parsed(r.asm, r.buf, r.captured) == Parse(r.config, FRESH, stream[at + 4..])
  }

  lemma ChunkReflects(codecs: Codecs, r: Relay, stream: seq<byte>, chunk: seq<byte>)
    requires Reflects(codecs, r, stream)
    ensures Reflects(codecs, OnChunk(codecs, r, chunk), stream + chunk)
  {
    hide Parse, AgreesToDeflate, IndexOf, OccursAt;
    var all := stream + chunk;
    if r.handshakeDone {
      var at := IndexOf(stream, HEAD_END).value;
      HeadEnds(stream, at);
      IndexOfStable(stream, chunk, HEAD_END);
      assert all[..at] == stream[..at];
      assert all[at + 4..] == stream[at + 4..] + chunk;
      ParseChunks(r.config, FRESH, stream[at + 4..], chunk);
    } else if IndexOf(all, HEAD_END).Some? {
      var at := IndexOf(all, HEAD_END).value;
      HeadEnds(all, at);
      assert [] + all[at + 4..] == all[at + 4..];
      var p := Parse(Config(AgreesToDeflate(codecs.utf8(all[..at])), codecs.inflate), FRESH, all[at + 4..]);
      assert [] + p.out == p.out;
    }
  }

  lemma HeadEnds(s: seq<byte>, at: nat)
    requires IndexOf(s, HEAD_END) == Some(at)
    ensures at + 4 <= |s|
  {}

  lemma {:induction false} RunReflects(codecs: Codecs, r: Relay, stream: seq<byte>, chunks: seq<seq<byte>>)
    requires Reflects(codecs, r, stream)
    ensures Reflects(codecs, Run(codecs, r, chunks), stream + Concat(chunks))
    decreases |chunks|
  {
    hide Reflects, OnChunk;
    if chunks == [] {
      assert stream + Concat(chunks) == stream;
    } else {
      ChunkReflects(codecs, r, stream, chunks[0]);
      RunReflects(codecs, OnChunk(codecs, r, chunks[0]), stream + chunks[0], chunks[1..]);
      assert stream + Concat(chunks) == stream + chunks[0] + Concat(chunks[1..]);
    }
  }

  /** Server-side capture is a parse of the whole stream, under every chunking. */
  lemma ServerCapture(codecs: Codecs, chunks: seq<seq<byte>>)
    ensures Reflects(codecs, Run(codecs, Start(codecs), chunks), Concat(chunks))
  {
    hide Run;
    var start := Start(codecs);
    assert Reflects(codecs, start, []) by {
      hide Parse;
      assert IndexOf<byte>([], HEAD_END).None?;
    }
    RunReflects(codecs, start, [], chunks);
    assert [] + Concat(chunks) == Concat(chunks);
  }

  lemma NothingCaptured(r: Relay)
    requires r.buf == []
    ensures Captured(r, []) == r
  {
    assert r.captured + [] == r.captured;
  }

  /** The relay object behind upstream.on("data"). */
  class ServerSide {
    var written: seq<byte>
    var handshakeDone: bool
    var handshakeBuf: seq<byte>
    var captured: seq<Message>
    const codecs: Codecs
    const clientParser: WsFrameParser
    const serverParser: WsFrameParser

    constructor (codecs: Codecs)
      ensures Valid() && State() == Start(codecs) && this.codecs == codecs
      ensures fresh(clientParser) && fresh(serverParser)
    {
      this.codecs := codecs;
      written, handshakeDone, handshakeBuf, captured := [], false, [], [];
      clientParser := new WsFrameParser(codecs.inflate);
      serverParser := new WsFrameParser(codecs.inflate);
    }

    ghost predicate Valid()
      reads this, serverParser
    {
      clientParser != serverParser && serverParser.inflate == codecs.inflate &&
      (!handshakeDone ==> !serverParser.enableDeflate && serverParser.buf == [])
    }

    function State(): Relay
      reads this, serverParser
    {
      Relay(written, handshakeDone, handshakeBuf, serverParser.Cfg(), serverParser.Asm(), serverParser.buf, captured)
    }

    method OnData(chunk: seq<byte>)
      requires Valid()
      modifies this, serverParser, clientParser
      ensures Valid() && State() == OnChunk(codecs, old(State()), chunk)
      ensures clientParser.enableDeflate ==
              (old(clientParser.enableDeflate) || (!old(handshakeDone) && serverParser.enableDeflate))
    {
      hide Parse, NextFrame, AgreesToDeflate, IndexOf;
      written := written + chunk;
      if !handshakeDone {
        handshakeBuf := handshakeBuf + chunk;
        var idx := IndexOf(handshakeBuf, HEAD_END);
        if idx.None? {
          return;
        }
        handshakeDone := true;
        HeadEnds(handshakeBuf, idx.value);
        var hasDeflate := HasDeflate(codecs.utf8(handshakeBuf[..idx.value]));
        if hasDeflate {
          clientParser.enableDeflate := true;
          serverParser.enableDeflate := true;
        }
        var after := handshakeBuf[idx.value + 4..];
        if |after| > 0 {
          Capture(after);
        } else {
          NothingCaptured(State());
        }
        return;
      }
      Capture(chunk);
    }

    method Capture(bytes: seq<byte>)
      modifies this`captured, serverParser
      ensures State() == Captured(old(State()), bytes)
      ensures serverParser.enableDeflate == old(serverParser.enableDeflate)
    {
      hide Parse, NextFrame;
      var messages := serverParser.Push(bytes);
      captured := captured + messages;
    }
  }

  /** The scan of the response head for an agreed compression extension. */
  method HasDeflate(head: string) returns (r: bool)
    ensures r == AgreesToDeflate(head)
  {
    hide IsDeflateLine, Split;
    var lines := Split(head, CRLF);
    r := false;
    for k := 0 to |lines|
      invariant r == exists i | 0 <= i < k :: IsDeflateLine(lines[i])
    {
      if IsDeflateLine(lines[k]) {
        r := true;
      }
    }
  }
}
