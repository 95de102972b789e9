/** Relaying a response body: the incremental path of src/core/request-handler.ts against collecting it first
    (src/core/stream-util.ts). */
module Streaming {
  import opened Prelude
  import opened Text
  import opened Headers
  import opened FlowModel
  import opened Encoding
  import opened Numbers
  import opened Rules

  /** A body cut for storage. */
  datatype Stored = Stored(body: seq<byte>, truncated: bool)

  function BoundForStorage(body: seq<byte>, max: nat): Stored {
    if |body| <= max then Stored(body, false) else Stored(body[..max], true)
  }

  /** collectBody: the chunks of a stream, joined when it ends. */
  class Collector {
    var chunks: seq<seq<byte>>

    constructor ()
      ensures chunks == []
    {
      chunks := [];
    }

    method OnData(chunk: seq<byte>)
      modifies this
      ensures Concat(chunks) == Concat(old(chunks)) + chunk
    {
      ConcatSnoc(chunks, chunk);
      chunks := chunks + [chunk];
    }

    method OnEnd() returns (body: seq<byte>)
      ensures body == Concat(chunks)
    {
      body := [];
      assert chunks[..|chunks|] == chunks;
      for i := 0 to |chunks|
        invariant body == Concat(chunks[..i])
      {
        ConcatSnoc(chunks[..i], chunks[i]);
        assert chunks[..i + 1] == chunks[..i] + [chunks[i]];
        body := body + chunks[i];
      }
    }
  }

  /** An empty chunk came when the store was already full. */
  ghost predicate LateEmpty(chunks: seq<seq<byte>>, max: nat) {
    exists i | 0 <= i < |chunks| :: chunks[i] == [] && |Concat(chunks[..i])| >= max
  }

  /** The variables of streamResponse: the bounded copy, its length, and whether it is cut. */
  datatype Tap = Tap(captured: seq<seq<byte>>, storedLen: nat, truncated: bool)

  const UNTAPPED: Tap := Tap([], 0, false)

  function TapChunk(max: nat, t: Tap, chunk: seq<byte>): Tap {
    if t.storedLen < max then
      var room := max - t.storedLen;
      Tap(t.captured + [if |chunk| <= room then chunk else chunk[..room]], t.storedLen + Min(|chunk|, room),
          t.truncated || |chunk| > room)
    else t.(truncated := true)
  }

  /** What the client was sent and what is kept, for a stream cut into these chunks. */
  ghost predicate Teed(chunks: seq<seq<byte>>, max: nat, sent: seq<byte>, t: Tap) {
    sent == Concat(chunks) && Concat(t.captured) == BoundForStorage(Concat(chunks), max).body &&
    t.storedLen == Min(max, |Concat(chunks)|) && (t.truncated <==> |Concat(chunks)| > max || LateEmpty(chunks, max))
  }

  lemma NothingTeed(max: nat)
    ensures Teed([], max, [], UNTAPPED)
  {}

  lemma ChunkTeed(chunks: seq<seq<byte>>, max: nat, sent: seq<byte>, t: Tap, chunk: seq<byte>)
    requires Teed(chunks, max, sent, t)
    ensures Teed(chunks + [chunk], max, sent + chunk, TapChunk(max, t, chunk))
  {
    hide Concat, LateEmpty;
    var before := Concat(chunks);
    ConcatSnoc(chunks, chunk);
    LateSnoc(chunks, chunk, max);
    if t.storedLen < max {
      var room := max - t.storedLen;
      var part := if |chunk| <= room then chunk else chunk[..room];
      ConcatSnoc(t.captured, part);
      assert |chunk| > room ==> (before + chunk)[..max] == before + part;
    } else {
      assert (before + chunk)[..max] == before[..max];
      assert |before| == max ==> before[..max] == before;
      assert chunk == [] ==> before + chunk == before;
    }
  }

  /** streamResponse: every chunk goes to the client at once, and a bounded copy to the flow. */
  class Tee {
    const max: nat
    var sent: seq<byte>
    var captured: seq<seq<byte>>
    var storedLen: nat
    var truncated: bool
    ghost var received: seq<seq<byte>>

    constructor (max: nat)
      ensures Valid() && received == [] && this.max == max && Look() == UNTAPPED
    {
      this.max := max;
      sent, captured, storedLen, truncated, received := [], [], 0, false, [];
      new;
      NothingTeed(max);
    }

    function Look(): Tap
      reads this
    {
      Tap(captured, storedLen, truncated)
    }

    ghost predicate Valid()
      reads this
    {
      Teed(received, max, sent, Look())
    }

    method OnData(chunk: seq<byte>)
      requires Valid()
      modifies this
      ensures Valid() && received == old(received) + [chunk] && Look() == TapChunk(max, old(Look()), chunk)
    {
      hide Teed;
      ChunkTeed(received, max, sent, Look(), chunk);
      sent := sent + chunk;
      if storedLen < max {
        var room := max - storedLen;
        captured := captured + [if |chunk| <= room then chunk else chunk[..room]];
        storedLen := storedLen + Min(|chunk|, room);
        if |chunk| > room {
          truncated := true;
        }
      } else {
        truncated := true;
      }
      received := received + [chunk];
    }

    /** The end of the stream, or its failure: what the flow records. */
    method Finish() returns (stored: Stored)
      requires Valid()
      ensures sent == Concat(received) && stored == Stored(Concat(captured), truncated)
      ensures stored.body == BoundForStorage(Concat(received), max).body
      ensures stored.truncated == BoundForStorage(Concat(received), max).truncated
              <==> !(|Concat(received)| <= max && LateEmpty(received, max))
    {
      var body := [];
      assert captured[..|captured|] == captured;
      for i := 0 to |captured|
        invariant body == Concat(captured[..i])
      {
        ConcatSnoc(captured[..i], captured[i]);
        assert captured[..i + 1] == captured[..i] + [captured[i]];
        body := body + captured[i];
      }
      stored := Stored(body, truncated);
    }
  }

  lemma LateSnoc(chunks: seq<seq<byte>>, chunk: seq<byte>, max: nat)
    ensures LateEmpty(chunks + [chunk], max) <==> LateEmpty(chunks, max) || (chunk == [] && |Concat(chunks)| >= max)
  {
    hide Concat;
    var all := chunks + [chunk];
    assert all[|chunks|] == chunk && all[..|chunks|] == chunks;
    if LateEmpty(chunks, max) {
      var i :| 0 <= i < |chunks| && chunks[i] == [] && |Concat(chunks[..i])| >= max;
      assert all[i] == chunks[i] && all[..i] == chunks[..i];
    }
    if LateEmpty(all, max) {
      var i :| 0 <= i < |all| && all[i] == [] && |Concat(all[..i])| >= max;
      if i < |chunks| {
        assert all[i] == chunks[i] && all[..i] == chunks[..i];
      }
    }
  }

  // ---- the two paths of handleRequest ----

  const STREAM_THRESHOLD: int := 1024 * 1024

  /** Whether the response may be relayed as it comes; length is the declared one, when it is a number. */
  predicate CanStream(rules: seq<Rule>, responseHooks: bool, breakpoint: View -> bool, v: View, eventStream: bool,
                      length: Option<int>)
    requires v.response.Some?
  {
    !(exists i | 0 <= i < |rules| :: RewritesBody(rules[i].op) && rules[i].matches(v)) && !responseHooks &&
    !IsDecodable(EncodingOf(v.response.value.headers)) && !breakpoint(v) &&
    (eventStream || length.None? || length.value > STREAM_THRESHOLD)
  }

  /** How a response ends: held by a breakpoint, or sent and kept. */
  datatype Outcome = Held | Delivered(status: int, headers: Outgoing, body: seq<byte>, kept: View, truncated: bool)

  const HOP: set<string> := {"transfer-encoding", "connection"}

  /** writeStreamHead: the declared length is passed on. */
  function StreamHead(fields: Fields): Outgoing {
    SetAll(map[], Grouped(WithoutNames(fields, HOP)))
  }

  function WithBody(v: View, body: Option<seq<byte>>): View
    requires v.response.Some?
  {
    v.(response := Some(v.response.value.(body := body)))
  }

  /** boundStored on the request side. */
  function BoundRequest(q: Request, max: nat): Request {
    match q.body case Some(b) => q.(body := Some(BoundForStorage(b, max).body)) case None => q
  }

  /** The buffered path without response hooks: collect, decode, apply the rules, pause or relay, and cut. */
  function Buffered(env: Env, codec: Codec, rules: seq<Rule>, breakpoint: View -> bool, v: View, raw: seq<byte>,
                    max: nat): Outcome
    requires v.response.Some?
  {
    RespondedSome(env, WithBody(v, Some(raw)), rules);
    RespondedSome(env, WithBody(v, Some(Decoded(codec, raw, EncodingOf(v.response.value.headers)))), rules);
    var decoded := Decoded(codec, raw, EncodingOf(v.response.value.headers));
    var w := Responded(env, WithBody(v, Some(decoded)), rules);
    if breakpoint(w) then Held
    else
      var s := w.response.value;
      var modified := s.body.Some? && s.body.value != decoded;
      var fields := if modified then HDelete(s.headers, CE) else s.headers;
      var sent := Relayed(s.headers, s.body, raw, decoded);
      var stored := match s.body case Some(b) => BoundForStorage(b, max) case None => Stored([], false);
      Delivered(Orr(s.statusCode, 200), sent.headers, sent.body,
                w.(request := BoundRequest(w.request, max),
                   response := Some(s.(headers := fields, body := if s.body.Some? then Some(stored.body) else None))),
                stored.truncated)
  }

  /** The incremental path, with what the tee keeps. */
  function Streamed(env: Env, rules: seq<Rule>, v: View, sent: seq<byte>, stored: Stored): Outcome
    requires v.response.Some?
  {
    RespondedSome(env, v, rules);
    var w := Responded(env, v, rules);
    var s := w.response.value;
    Delivered(Orr(s.statusCode, 200), StreamHead(s.headers), sent, WithBody(w, Some(stored.body)), stored.truncated)
  }

  lemma {:induction false} RespondedSome(env: Env, v: View, rules: seq<Rule>)
    ensures Responded(env, v, rules).response.Some? <==> v.response.Some?
    ensures Responded(env, v, rules).request == v.request
    decreases |rules|
  {
    hide OnResponse;
    if rules != [] {
      OnlyResponse(env, v, rules[0]);
      RespondedSome(env, if rules[0].matches(v) then OnResponse(env, v, rules[0]) else v, rules[1..]);
    }
  }

  /** A predicate on flows that looks at the request only. */
  ghost predicate RequestOnly(p: View -> bool) {
    forall a: View, b: View :: a.request == b.request ==> p(a) == p(b)
  }

  /** A predicate on flows that does not look at the response body. */
  ghost predicate BodyBlind(p: View -> bool) {
    forall v: View, b: Option<seq<byte>> :: v.response.Some? ==> p(v) == p(WithBody(v, b))
  }

  /** Some substitution rule fires on the way through the rules. */
  predicate Replaces(env: Env, v: View, rules: seq<Rule>)
    decreases |rules|
  {
    rules != [] &&
    if rules[0].matches(v) then rules[0].op.ResReplace? || Replaces(env, OnResponse(env, v, rules[0]), rules[1..])
    else Replaces(env, v, rules[1..])
  }

  lemma KeepsBody(env: Env, v: View, r: Rule)
    requires v.response.Some? && !r.op.ResReplace?
    ensures OnResponse(env, v, r).response.Some?
    ensures OnResponse(env, v, r).response.value.body == v.response.value.body
    ensures forall b :: OnResponse(env, WithBody(v, b), r) == WithBody(OnResponse(env, v, r), b)
    ensures forall f :: OnResponse(env.(replace := f), v, r) == OnResponse(env, v, r)
  {
    hide Edited, NumberOr;
    SameLibraries(env);
  }

  lemma SameLibraries(env: Env)
    ensures forall f, value, n :: NumberOr(env.(replace := f), value, n) == NumberOr(env, value, n)
  {}

  lemma {:induction false} NoReplacement(env: Env, v: View, rules: seq<Rule>)
    requires v.response.Some? && !Replaces(env, v, rules)
    ensures Responded(env, v, rules).response.Some?
    ensures Responded(env, v, rules).response.value.body == v.response.value.body
    decreases |rules|
  {
    hide OnResponse;
    if rules != [] {
      if rules[0].matches(v) {
        KeepsBody(env, v, rules[0]);
        NoReplacement(env, OnResponse(env, v, rules[0]), rules[1..]);
      } else {
        NoReplacement(env, v, rules[1..]);
      }
    }
  }

  function Grow(b: seq<byte>, spec: string): seq<byte> {
    b + [0]
  }

  ghost predicate AtLeast(v: View, n: nat) {
    v.response.Some? && v.response.value.body.Some? && |v.response.value.body.value| >= n
  }

  lemma GrowStep(env: Env, v: View, r: Rule, n: nat)
    requires env.replace == Grow && AtLeast(v, n)
    ensures AtLeast(OnResponse(env, v, r), if r.op.ResReplace? then n + 1 else n)
  {
    hide Edited, NumberOr;
    if !r.op.ResReplace? {
      KeepsBody(env, v, r);
    }
  }

  lemma {:induction false} Grows(env: Env, v: View, rules: seq<Rule>, n: nat)
    requires env.replace == Grow && AtLeast(v, n)
    ensures AtLeast(Responded(env, v, rules), if Replaces(env, v, rules) then n + 1 else n)
    decreases |rules|
  {
    hide OnResponse, AtLeast;
    if rules != [] {
      if rules[0].matches(v) {
        GrowStep(env, v, rules[0], n);
        Grows(env, OnResponse(env, v, rules[0]), rules[1..], if rules[0].op.ResReplace? then n + 1 else n);
        Weaker(Responded(env, v, rules), n);
      } else {
        Grows(env, v, rules[1..], n);
      }
    }
  }

  lemma Weaker(v: View, n: nat)
    ensures AtLeast(v, n + 2) ==> AtLeast(v, n + 1)
  {}

  lemma {:induction false} ReplacesAnyway(env: Env, v: View, rules: seq<Rule>, f: (seq<byte>, string) -> seq<byte>)
    requires v.response.Some?
    ensures Replaces(env.(replace := f), v, rules) == Replaces(env, v, rules)
    decreases |rules|
  {
    hide OnResponse;
    if rules != [] {
      if rules[0].matches(v) {
        if !rules[0].op.ResReplace? {
          KeepsBody(env, v, rules[0]);
          ReplacesAnyway(env, OnResponse(env, v, rules[0]), rules[1..], f);
        }
      } else {
        ReplacesAnyway(env, v, rules[1..], f);
      }
    }
  }

  /** The response body stays as it was, whatever substitutions do, exactly when no substitution rule fires. */
  lemma SameBodyIff(env: Env, v: View, rules: seq<Rule>, raw: seq<byte>)
    requires v.response.Some? && v.response.value.body == Some(raw)
    ensures (forall f: (seq<byte>, string) -> seq<byte> ::
               Responded(env.(replace := f), v, rules).response.Some? &&
               Responded(env.(replace := f), v, rules).response.value.body == Some(raw))
            <==> !Replaces(env, v, rules)
  {
    hide Responded, OnResponse;
    forall f: (seq<byte>, string) -> seq<byte> | !Replaces(env, v, rules)
      ensures Responded(env.(replace := f), v, rules).response.Some?
      ensures Responded(env.(replace := f), v, rules).response.value.body == Some(raw)
    {
      ReplacesAnyway(env, v, rules, f);
      NoReplacement(env.(replace := f), v, rules);
    }
    if Replaces(env, v, rules) {
      ReplacesAnyway(env, v, rules, Grow);
      Grows(env.(replace := Grow), v, rules, |raw|);
      assert Responded(env.(replace := Grow), v, rules).response.value.body != Some(raw);
    }
  }

  /** When no substitution rule fires, what substitutions would do has no influence. */
  lemma {:induction false} RespondedAnyway(env: Env, v: View, rules: seq<Rule>, f: (seq<byte>, string) -> seq<byte>)
    requires v.response.Some? && !Replaces(env, v, rules)
    ensures Responded(env.(replace := f), v, rules) == Responded(env, v, rules)
    decreases |rules|
  {
    hide OnResponse;
    if rules != [] {
      if rules[0].matches(v) {
        KeepsBody(env, v, rules[0]);
        RespondedAnyway(env, OnResponse(env, v, rules[0]), rules[1..], f);
      } else {
        RespondedAnyway(env, v, rules[1..], f);
      }
    }
  }

  /** What the buffered path sends, in terms of the rules and the breakpoint, when the body is not encoded. */
  lemma BufferedSends(env: Env, codec: Codec, rules: seq<Rule>, breakpoint: View -> bool, v: View, raw: seq<byte>,
                      max: nat)
    requires v.response.Some? && !IsDecodable(EncodingOf(v.response.value.headers))
    ensures var w := Responded(env, WithBody(v, Some(raw)), rules);
            var b := Buffered(env, codec, rules, breakpoint, v, raw, max);
            w.response.Some? &&
            (b.Held? <==> breakpoint(w)) &&
            (b.Delivered? ==> b.body == match w.response.value.body case Some(x) => x case None => raw)
  {
    hide Responded, IsDecodable, EncodingOf, WriteResponse, HDelete, DecodeBody, BoundForStorage;
    var w := Responded(env, WithBody(v, Some(raw)), rules);
    RespondedSome(env, WithBody(v, Some(raw)), rules);
    var s := w.response.value;
    LengthWritten(s.headers, raw);
    if s.body.Some? {
      LengthWritten(HDelete(s.headers, CE), s.body.value);
    }
  }

  /** Whatever substitutions do, the buffered path sends the bytes that the stream sends if and only if no
      substitution rule fires on the collected response and the breakpoint, which is asked after the rules, does not
      match what they make of it. */
  lemma SameBytesIff(env: Env, codec: Codec, rules: seq<Rule>, breakpoint: View -> bool, v: View, raw: seq<byte>,
                     max: nat)
    requires v.response.Some? && !IsDecodable(EncodingOf(v.response.value.headers))
    ensures var collected := WithBody(v, Some(raw));
            (forall f: (seq<byte>, string) -> seq<byte> ::
               var b := Buffered(env.(replace := f), codec, rules, breakpoint, v, raw, max);
               b.Delivered? && b.body == raw)
            <==> !Replaces(env, collected, rules) && !breakpoint(Responded(env, collected, rules))
  {
    hide Responded, Replaces, Buffered, IsDecodable, EncodingOf;
    var collected := WithBody(v, Some(raw));
    var quiet := !Replaces(env, collected, rules) && !breakpoint(Responded(env, collected, rules));
    forall f: (seq<byte>, string) -> seq<byte> | quiet
      ensures var b := Buffered(env.(replace := f), codec, rules, breakpoint, v, raw, max);
              b.Delivered? && b.body == raw
    {
      RespondedAnyway(env, collected, rules, f);
      NoReplacement(env, collected, rules);
      BufferedSends(env.(replace := f), codec, rules, breakpoint, v, raw, max);
    }
    if Replaces(env, collected, rules) {
      GrownIsSent(env, codec, rules, breakpoint, v, raw, max);
    } else {
      RespondedAnyway(env, collected, rules, env.replace);
      assert env.(replace := env.replace) == env;
      BufferedSends(env, codec, rules, breakpoint, v, raw, max);
    }
  }

  lemma GrownIsSent(env: Env, codec: Codec, rules: seq<Rule>, breakpoint: View -> bool, v: View, raw: seq<byte>,
                    max: nat)
    requires v.response.Some? && !IsDecodable(EncodingOf(v.response.value.headers))
    requires Replaces(env, WithBody(v, Some(raw)), rules)
    ensures var b := Buffered(env.(replace := Grow), codec, rules, breakpoint, v, raw, max);
            !(b.Delivered? && b.body == raw)
  {
    hide Responded, Replaces, Buffered, IsDecodable, EncodingOf;
    var collected := WithBody(v, Some(raw));
    ReplacesAnyway(env, collected, rules, Grow);
    Grows(env.(replace := Grow), collected, rules, |raw|);
    BufferedSends(env.(replace := Grow), codec, rules, breakpoint, v, raw, max);
  }

  /** Body rules that look at the request only cannot begin to match on the way. */
  lemma {:induction false} NeverReplaces(env: Env, v: View, w: View, rules: seq<Rule>)
    requires v.response.Some? && w.request == v.request
    requires forall i | 0 <= i < |rules| ::
               RewritesBody(rules[i].op) ==> RequestOnly(rules[i].matches) && !rules[i].matches(w)
    ensures !Replaces(env, v, rules)
    decreases |rules|
  {
    hide OnResponse, RequestOnly;
    if rules != [] {
      assert forall i | 0 <= i < |rules[1..]| :: rules[1..][i] == rules[i + 1];
      if rules[0].op.ResReplace? {
        assert rules[0].matches(v) == rules[0].matches(w) by {
          SameAnswer(rules[0].matches, v, w);
        }
      }
      if rules[0].matches(v) {
        OnlyResponse(env, v, rules[0]);
        NeverReplaces(env, OnResponse(env, v, rules[0]), w, rules[1..]);
      } else {
        NeverReplaces(env, v, w, rules[1..]);
      }
    }
  }

  lemma SameAnswer(p: View -> bool, v: View, w: View)
    requires RequestOnly(p) && v.request == w.request
    ensures p(v) == p(w)
  {}

  /** Streaming refines buffering: for every split of the body into chunks, what the tee sends and keeps is
      what collecting first would have sent and kept, as long as body rules and breakpoints look at the
      request only. The flag of the flow agrees unless an empty chunk met a store filled to the last byte. */
  lemma StreamingRefinesBuffering(env: Env, codec: Codec, rules: seq<Rule>, responseHooks: bool,
                                  breakpoint: View -> bool, v: View, eventStream: bool, length: Option<int>,
                                  chunks: seq<seq<byte>>, max: nat, sent: seq<byte>, t: Tap)
    requires v.response.Some? && v.response.value.body.None?
    requires CanStream(rules, responseHooks, breakpoint, v, eventStream, length)
    requires forall i | 0 <= i < |rules| :: RewritesBody(rules[i].op) ==> RequestOnly(rules[i].matches)
    requires RequestOnly(breakpoint)
    requires Teed(chunks, max, sent, t)
    ensures var b := Buffered(env, codec, rules, breakpoint, v, Concat(chunks), max);
            var s := Streamed(env, rules, v, sent, Stored(Concat(t.captured), t.truncated));
            b.Delivered? && s.body == b.body == Concat(chunks) &&
            s.kept.response.Some? && b.kept.response.Some? &&
            s.kept.response.value.body == b.kept.response.value.body &&
            (s.truncated == b.truncated <==> !(|Concat(chunks)| <= max && LateEmpty(chunks, max)))
  {
    hide Responded, RequestOnly, Concat, LateEmpty, EncodingOf, IsDecodable, DecodeBody, WriteResponse, HDelete;
    hide StreamHead;
    var raw := Concat(chunks);
    var collected := WithBody(v, Some(raw));
    NeverReplaces(env, collected, v, rules);
    NoReplacement(env, collected, rules);
    RespondedSome(env, collected, rules);
    RespondedSome(env, v, rules);
    SameAnswer(breakpoint, Responded(env, collected, rules), v);
    LengthWritten(Responded(env, collected, rules).response.value.headers, raw);
  }

  lemma {:induction false} SameRun(env: Env, v: View, rules: seq<Rule>, raw: seq<byte>)
    requires v.response.Some? && !Replaces(env, WithBody(v, Some(raw)), rules)
    requires forall i | 0 <= i < |rules| :: BodyBlind(rules[i].matches)
    ensures Responded(env, v, rules).response.Some?
    ensures Responded(env, WithBody(v, Some(raw)), rules) == WithBody(Responded(env, v, rules), Some(raw))
    decreases |rules|
  {
    hide OnResponse, BodyBlind;
    if rules != [] {
      assert forall i | 0 <= i < |rules[1..]| :: rules[1..][i] == rules[i + 1];
      Blind(rules[0].matches, v, Some(raw));
      if rules[0].matches(v) {
        KeepsBody(env, v, rules[0]);
        SameRun(env, OnResponse(env, v, rules[0]), rules[1..], raw);
      } else {
        SameRun(env, v, rules[1..], raw);
      }
    }
  }

  lemma Blind(p: View -> bool, v: View, b: Option<seq<byte>>)
    requires BodyBlind(p) && v.response.Some?
    ensures p(v) == p(WithBody(v, b))
  {}

  /** When no rule looks at the response body, the heads agree as well: same status, and under every name but
      the recomputed length the same values. The recorded flows then differ at most in the request body, which
      the incremental path never cuts. */
  lemma StreamingSameHead(env: Env, codec: Codec, rules: seq<Rule>, breakpoint: View -> bool, v: View, raw: seq<byte>,
                          max: nat, stored: Stored, name: string)
    requires v.response.Some? && !IsDecodable(EncodingOf(v.response.value.headers))
    requires !Replaces(env, WithBody(v, Some(raw)), rules)
    requires forall i | 0 <= i < |rules| :: BodyBlind(rules[i].matches)
    requires stored.body == BoundForStorage(raw, max).body
    ensures var b := Buffered(env, codec, rules, breakpoint, v, raw, max);
            var s := Streamed(env, rules, v, raw, stored);
            b.Delivered? ==>
              s.status == b.status &&
              (Lower(name) != CL ==> ValuesOut(s.headers, Lower(name)) == ValuesOut(b.headers, Lower(name))) &&
              b.kept == s.kept.(request := BoundRequest(s.kept.request, max)) &&
              (b.kept == s.kept <==> v.request.body.None? || |v.request.body.value| <= max)
  {
    hide Responded, EncodingOf, IsDecodable, DecodeBody, Replaces, BodyBlind, HDelete, WriteResponse;
    hide StreamHead, Lower;
    SameRun(env, v, rules, raw);
    NoReplacement(env, WithBody(v, Some(raw)), rules);
    RespondedSome(env, v, rules);
    SameHeaders(Responded(env, v, rules).response.value.headers, raw, name);
  }

  lemma SameHeaders(fields: Fields, raw: seq<byte>, name: string)
    ensures Lower(name) != CL ==>
              ValuesOut(StreamHead(fields), Lower(name)) == ValuesOut(WriteResponse(fields, raw).headers, Lower(name))
  {
    hide Lower, Grouped, SetAll, WithoutNames, Decimal, NewestValues;
    if Lower(name) != CL {
      KeptValues(fields, HOP, name);
      KeptValues(fields, FRAMING, name);
    }
  }

  lemma KeptValues(fields: Fields, names: set<string>, name: string)
    ensures ValuesOut(SetAll(map[], Grouped(WithoutNames(fields, names))), Lower(name))
            == if Lower(name) in names then [] else NewestValues(fields, name)
  {
    hide Lower, Grouped, SetAll, WithoutNames, NewestSpelling, ExactValues;
    var kept := WithoutNames(fields, names);
    OutgoingValues(kept, name);
    NewestIsSpelling(kept, name);
    if Lower(name) in names {
      WithoutKeeps(fields, names, name);
      assert forall i | 0 <= i < |kept| :: kept[i] in kept;
    } else {
      NewestKept(fields, names, name);
      if NewestSpelling(kept, name).Some? {
        ExactKept(fields, names, NewestSpelling(kept, name).value);
      }
    }
  }

  /** What a response sends under each name, in any spelling: the group of the newest spelling, but nothing under the
      two names that Node manages; a whole response announces the length of its body, a streamed one the length it
      came with. */
  lemma HeadersOut(fields: Fields, payload: seq<byte>, name: string)
    ensures ValuesOut(WriteResponse(fields, payload).headers, Lower(name))
            == if Lower(name) == "transfer-encoding" || Lower(name) == "connection" then []
               else if Lower(name) == "content-length" then [Decimal(|payload|)]
               else NewestValues(fields, name)
    ensures ValuesOut(StreamHead(fields), Lower(name))
            == if Lower(name) == "transfer-encoding" || Lower(name) == "connection" then []
               else NewestValues(fields, name)
  {
    hide Lower, Grouped, SetAll, WithoutNames, Decimal, NewestValues;
    KeptValues(fields, HOP, name);
    KeptValues(fields, FRAMING, name);
  }

  /** "~c 200 status://404" and "~c 404 resReplace://a=>b". */
  function StatusRule(): Rule {
    Rule(Status, "404", "~c 200", (w: View) => w.response.Some? && w.response.value.statusCode == 200)
  }

  function ReplaceRule(): Rule {
    Rule(ResReplace, "a=>b", "~c 404", (w: View) => w.response.Some? && w.response.value.statusCode == 404)
  }

  lemma StatusThenReplace(env: Env, v: View, b: seq<byte>)
    requires v.response.Some? && v.response.value.statusCode == 200 && v.response.value.body == Some(b)
    requires env.number("404") == Some(404)
    ensures var w := Responded(env, v, [StatusRule(), ReplaceRule()]);
            w.response.Some? && w.response.value.body == Some(env.replace(b, "a=>b"))
  {
    var rules := [StatusRule(), ReplaceRule()];
    assert rules[1..] == [ReplaceRule()] && rules[1..][1..] == [];
    var one := OnResponse(env, v, StatusRule());
    assert one.response.value.statusCode == 404;
    assert Responded(env, one, [ReplaceRule()]) == Responded(env, OnResponse(env, one, ReplaceRule()), []);
  }

  lemma NothingRequested(env: Env, v: View)
    requires v.response.None?
    ensures Requested(env, v, [StatusRule(), ReplaceRule()]) == (v, Directive(false, 0, None))
  {
    var rules := [StatusRule(), ReplaceRule()];
    assert rules[1..] == [ReplaceRule()] && rules[1..][1..] == [];
    assert ApplyAll(env, Begin(v), rules) == ApplyAll(env, Begin(v), rules[1..]);
  }

  /** A body rule that looks at the response: the request goes upstream, when streaming is decided no body rule
      matches, but a status rule makes one match, and the collected body would have been rewritten. */
  lemma StatusThenReplaceDiverges(env: Env, codec: Codec, v: View, raw: seq<byte>, stored: Stored)
    requires v.response.Some? && v.response.value.body.None? && v.response.value.statusCode == 200
    requires !IsDecodable(EncodingOf(v.response.value.headers))
    requires env.number("404") == Some(404) && env.replace(raw, "a=>b") != raw
    ensures var rules := [StatusRule(), ReplaceRule()];
            var breakpoint := (w: View) => false;
            Requested(env, v.(response := None), rules).1 == Directive(false, 0, None) &&
            CanStream(rules, false, breakpoint, v, false, None) &&
            Buffered(env, codec, rules, breakpoint, v, raw, 0).Delivered? &&
            Buffered(env, codec, rules, breakpoint, v, raw, 0).body == env.replace(raw, "a=>b") &&
            Streamed(env, rules, v, raw, stored).body == raw
  {
    hide IsDecodable, EncodingOf, DecodeBody, WriteResponse, HDelete, Responded, OnResponse, Requested;
    var rules := [StatusRule(), ReplaceRule()];
    var collected := WithBody(v, Some(raw));
    NothingRequested(env, v.(response := None));
    StatusThenReplace(env, collected, raw);
    var s := Responded(env, collected, rules).response.value;
    LengthWritten(HDelete(s.headers, CE), env.replace(raw, "a=>b"));
  }

  /** A breakpoint that looks at the response: no substitution rule fires and none is there, but a status rule makes
      the breakpoint match. The collected response would have been held; the streamed one has gone out whole. */
  lemma StatusThenBreakpointDiverges(env: Env, codec: Codec, v: View, raw: seq<byte>, stored: Stored, max: nat)
    requires v.response.Some? && v.response.value.body.None? && v.response.value.statusCode == 200
    requires !IsDecodable(EncodingOf(v.response.value.headers))
    requires env.number("404") == Some(404)
    ensures var rules := [StatusRule()];
            var breakpoint := (w: View) => w.response.Some? && w.response.value.statusCode == 404;
            Requested(env, v.(response := None), rules).1 == Directive(false, 0, None) &&
            CanStream(rules, false, breakpoint, v, false, None) &&
            !Replaces(env, WithBody(v, Some(raw)), rules) &&
            Buffered(env, codec, rules, breakpoint, v, raw, max).Held? &&
            Streamed(env, rules, v, raw, stored).body == raw
  {
    hide IsDecodable, EncodingOf, DecodeBody, WriteResponse, HDelete, OnResponse, Buffered;
    var rules := [StatusRule()];
    var breakpoint := (w: View) => w.response.Some? && w.response.value.statusCode == 404;
    var collected := WithBody(v, Some(raw));
    assert rules[1..] == [];
    StatusSet(env, collected);
    BufferedSends(env, codec, rules, breakpoint, v, raw, max);
  }

  lemma StatusSet(env: Env, v: View)
    requires v.response.Some? && v.response.value.statusCode == 200 && env.number("404") == Some(404)
    ensures var w := Responded(env, v, [StatusRule()]);
            w.response.Some? && w.response.value.statusCode == 404
  {
    assert [StatusRule()][1..] == [];
    assert Responded(env, v, [StatusRule()]) == Responded(env, OnResponse(env, v, StatusRule()), []);
  }
}
