/** Whole stretches of a run of handleRequest (src/core/request-handler.ts): a streamed response from its head to
    its end, and what becomes of a killed flow. */
module PipelineRuns {
  import opened Prelude
  import opened Headers
  import opened FlowModel
  import opened Encoding
  import opened Rules
  import opened Streaming
  import opened Pipeline

  lemma {:induction false} RunAppend(s: State, a: seq<Moment>, b: seq<Moment>)
    ensures Run(s, a + b) == Run(Run(s, a), b)
    decreases |a|
  {
    hide Next;
    if a == [] {
      assert a + b == b;
    } else {
      assert (a + b)[0] == a[0] && (a + b)[1..] == a[1..] + b;
      RunAppend(Next(a[0].world, s, a[0].event), a[1..], b);
    }
  }

  lemma RunOne(s: State, m: Moment)
    ensures Run(s, [m]) == Next(m.world, s, m.event)
  {
    hide Next;
    assert [m][1..] == [];
    assert Run(Next(m.world, s, m.event), []) == Next(m.world, s, m.event);
  }

  // ---- a streamed response ----

  /** The chunks among what happens, in order. */
  function ChunksOf(moments: seq<Moment>): seq<seq<byte>> {
    if moments == [] then []
    else (if moments[0].event.Chunk? then [moments[0].event.bytes] else []) + ChunksOf(moments[1..])
  }

  function Sends(chunks: seq<seq<byte>>): seq<Effect> {
    seq(|chunks|, i requires 0 <= i < |chunks| => Data(chunks[i]))
  }

  predicate NoEnd(moments: seq<Moment>) {
    forall i | 0 <= i < |moments| :: !moments[i].event.Ended? && !moments[i].event.Failed?
  }

  /** While a response is streamed nothing but chunks, the end and failure has any effect. */
  lemma OnlyChunksCount(w: World, s: State, e: Event)
    requires s.pc.Relaying? && !s.resolver && s.answer.None? && !e.Ended? && !e.Failed?
    ensures Next(w, s, e)
            == if e.Chunk? then Emit(s, Data(e.bytes)).(tap := TapChunk(s.max, s.tap, e.bytes)) else s
  {
    hide TapChunk;
  }

  lemma ChunksStep(moments: seq<Moment>)
    requires moments != []
    ensures var e := moments[0].event;
            ChunksOf(moments) == if e.Chunk? then [e.bytes] + ChunksOf(moments[1..]) else ChunksOf(moments[1..])
  {
    assert [] + ChunksOf(moments[1..]) == ChunksOf(moments[1..]);
  }

  lemma SendsStep(trace: seq<Effect>, chunk: seq<byte>, rest: seq<seq<byte>>)
    ensures trace + [Data(chunk)] + Sends(rest) == trace + Sends([chunk] + rest)
  {
    assert Sends([chunk] + rest) == [Data(chunk)] + Sends(rest);
  }

  /** Every chunk goes out as it came, and the copy is the one of all chunks so far. */
  lemma {:induction false} StreamRuns(s: State, moments: seq<Moment>, before: seq<seq<byte>>)
    requires s.pc.Relaying? && !s.resolver && s.answer.None? && NoEnd(moments)
    requires Teed(before, s.max, Concat(before), s.tap)
    ensures var t := Run(s, moments);
            var all := before + ChunksOf(moments);
            t == s.(trace := s.trace + Sends(ChunksOf(moments)), tap := t.tap) &&
            Teed(all, s.max, Concat(all), t.tap)
    decreases |moments|
  {
    hide Next, Teed, TapChunk, Concat, Sends, ChunksOf;
    if moments == [] {
      NoChunks();
      assert before + [] == before && s.trace + [] == s.trace;
    } else {
      var w, e := moments[0].world, moments[0].event;
      var rest := moments[1..];
      assert forall i | 0 <= i < |rest| :: rest[i] == moments[i + 1];
      OnlyChunksCount(w, s, e);
      ChunksStep(moments);
      var n := Next(w, s, e);
      if e.Chunk? {
        ChunkTeed(before, s.max, Concat(before), s.tap, e.bytes);
        ConcatSnoc(before, e.bytes);
        StreamRuns(n, rest, before + [e.bytes]);
        assert before + [e.bytes] + ChunksOf(rest) == before + ([e.bytes] + ChunksOf(rest));
        SendsStep(s.trace, e.bytes, ChunksOf(rest));
      } else {
        StreamRuns(n, rest, before);
      }
    }
  }

  lemma NoChunks()
    ensures ChunksOf([]) == [] && Sends([]) == []
  {}

  /** The head of the response has been through its hooks: the machine streams, with the head of the incremental
      path, exactly when streaming is allowed, and collects the body otherwise. */
  lemma MachineChooses(w: World, s: State)
    requires s.pc.ResponseHeadersHook? && s.view.response.Some?
    ensures var o := Streamed(w.env, w.rules, s.view, [], Stored([], false));
            var u := Next(w, s, Hooked(s.view));
            if MayStream(w, s.view) then
              w.accepts(o.status, o.headers) ==>
                u == s.(pc := Relaying, view := Responded(w.env, s.view, w.rules), tap := UNTAPPED,
                        trace := s.trace + [StreamStart(o.status, o.headers)])
            else u == s.(pc := ReadingResponse)
  {
    hide Responded, CanStream, StreamHead;
    RespondedSome(w.env, s.view, w.rules);
    assert Adopt(s, s.view) == s;
  }

  /** The head has been through its hooks, streaming is allowed, and Node takes the head. */
  predicate Streams(w: World, s: State) {
    s.pc.ResponseHeadersHook? && s.view.response.Some? && MayStream(w, s.view) &&
    var o := Streamed(w.env, w.rules, s.view, [], Stored([], false));
    w.accepts(o.status, o.headers)
  }

  /** From the hooks on the head to the end of the stream. */
  function StreamedRun(w: World, s: State, moments: seq<Moment>, last: Moment): State {
    Run(s, [Moment(w, Hooked(s.view))] + moments + [last])
  }

  /** A streamed response from its head to its end or failure, whatever else happens meanwhile: the head, the chunks
      as they came and the close go out, and the flow is left as the incremental path says, with the copy that the
      tee made of exactly these chunks. */
  lemma MachineStreams(w: World, s: State, moments: seq<Moment>, last: Moment)
    requires Good(s) && Streams(w, s) && NoEnd(moments) && (last.event.Ended? || last.event.Failed?)
    ensures var chunks := ChunksOf(moments);
            var t := StreamedRun(w, s, moments, last);
            var o := Streamed(w.env, w.rules, s.view, Concat(chunks), Stored(Concat(t.tap.captured), t.tap.truncated));
            Teed(chunks, s.max, Concat(chunks), t.tap) && t.pc.Done? &&
            t.trace == s.trace + [StreamStart(o.status, o.headers)] + Sends(chunks) + [Close] &&
            t.view == o.kept && t.truncated == o.truncated
  {
    hide Next, Teed, Concat, CanStream, Responded, StreamHead, Run, Sends, ChunksOf;
    var first := Moment(w, Hooked(s.view));
    var u := Next(w, s, Hooked(s.view));
    MachineChooses(w, s);
    NothingTeed(s.max);
    NothingJoined();
    StreamRuns(u, moments, []);
    assert [] + ChunksOf(moments) == ChunksOf(moments);
    RespondedSome(w.env, s.view, w.rules);
    RunOne(s, first);
    RunAppend(s, [first], moments);
    RunAppend(s, [first] + moments, [last]);
    var v := Run(u, moments);
    RunOne(v, last);
    EndFinishes(last.world, v, last.event);
  }

  lemma NothingJoined()
    ensures Concat<byte>([]) == []
  {}

  lemma EndFinishes(w: World, s: State, e: Event)
    requires s.pc.Relaying? && s.view.response.Some? && (e.Ended? || e.Failed?)
    ensures Next(w, s, e)
            == s.(pc := Done, trace := s.trace + [Close], truncated := s.tap.truncated,
                  view := WithBody(s.view, Some(Concat(s.tap.captured))))
  {
    hide Concat;
  }

  /** Streaming refines buffering, said of the machine: when body rules and breakpoints look at the request only, a
      streamed run sends and records the body that collecting these chunks would have sent and recorded, for every
      split into chunks; the flags differ only when an empty chunk met a store filled to the last byte. */
  lemma MachineRefines(w: World, s: State, moments: seq<Moment>, last: Moment)
    requires Good(s) && Streams(w, s) && NoEnd(moments) && (last.event.Ended? || last.event.Failed?)
    requires s.view.response.value.body.None? && RequestOnly(w.responseBreakpoint)
    requires forall i | 0 <= i < |w.rules| :: RewritesBody(w.rules[i].op) ==> RequestOnly(w.rules[i].matches)
    ensures var chunks := ChunksOf(moments);
            var t := StreamedRun(w, s, moments, last);
            var b := Buffered(w.env, w.codec, w.rules, w.responseBreakpoint, s.view, Concat(chunks), s.max);
            b.Delivered? && b.body == Concat(chunks) && t.view.response.Some? && b.kept.response.Some? &&
            t.view.response.value.body == b.kept.response.value.body &&
            (t.truncated == b.truncated <==> !(|Concat(chunks)| <= s.max && LateEmpty(chunks, s.max)))
  {
    hide Next, Teed, Concat, CanStream, Responded, StreamHead, StreamedRun, Sends, ChunksOf, RequestOnly, LateEmpty;
    hide Buffered;
    MachineStreams(w, s, moments, last);
    var chunks := ChunksOf(moments);
    var t := StreamedRun(w, s, moments, last);
    var headers := s.view.response.value.headers;
    StreamingRefinesBuffering(w.env, w.codec, w.rules, w.responseHooks, w.responseBreakpoint, s.view,
                              w.eventStream(headers), w.length(headers), chunks, s.max, Concat(chunks), t.tap);
  }

  // ---- a killed flow ----

  /** While the answer waits for the handler to wake nothing else has any effect. */
  lemma WaitsToWake(w: World, s: State, e: Event)
    requires Good(s) && s.answer.Some? && !e.Woken?
    ensures Next(w, s, e) == s
  {
    hide Lawful, HookInv, TraceInv;
  }

  lemma {:induction false} WaitingRuns(s: State, moments: seq<Moment>)
    requires Good(s) && s.answer.Some? && forall i | 0 <= i < |moments| :: !moments[i].event.Woken?
    ensures Run(s, moments) == s
    decreases |moments|
  {
    hide Next, Good;
    if moments != [] {
      WaitsToWake(moments[0].world, s, moments[0].event);
      assert forall i | 0 <= i < |moments[1..]| :: moments[1..][i] == moments[i + 1];
      WaitingRuns(s, moments[1..]);
    }
  }

  /** The handler of a killed flow wakes: the connection is destroyed if and only if no listener of the store throws
      just then; if one does, the error hook runs, and after it the client is answered with 502. */
  lemma KilledWakes(w: World, s: State)
    requires Good(s) && s.answer == Some(Killed)
    ensures var t := Next(w, s, Woken);
            (t.pc.Done? && t.trace == s.trace + [Destroy] <==> !w.updateThrows) &&
            (w.updateThrows ==> t.pc.ErrorHook? && t.trace == s.trace + [Hook(OnError)])
    ensures w.updateThrows ==>
              forall x: World, v: View ::
                var u := Next(x, Next(w, s, Woken), Hooked(v));
                u.pc.Done? && u.trace == s.trace + [Hook(OnError)] + [Notice(502, Complaint(Next(w, s, Woken)))]
  {
    hide Lawful, HookInv, Quiet, Unruled, Asked, Passed, Granted, Refused;
    assert (s.trace + [Destroy])[|s.trace|] == Destroy;
    assert (s.trace + [Hook(OnError)])[|s.trace|] == Hook(OnError);
    if w.updateThrows {
      HeadUnsent(s);
    }
  }

  lemma HeadUnsent(s: State)
    requires Good(s) && Pipeline.Held(s.pc)
    ensures !HeadSent(s.trace + [Hook(OnError)])
  {
    hide Lawful, HookInv, Quiet, Unruled, Asked, Passed, Granted, Refused;
    var t := s.trace + [Hook(OnError)];
    assert forall i | 0 <= i < |s.trace| :: t[i] == s.trace[i];
    assert t[|s.trace|] == Hook(OnError);
  }

  /** In every run in which a pause was answered with kill: whatever happens, the first thing the handler does is at
      its waking, and it is to destroy the connection if and only if no listener of the store throws then. */
  lemma KilledRuns(v: View, max: nat, before: seq<Moment>, after: seq<Moment>, k: nat)
    requires Run(Fresh(v, max), before).answer == Some(Killed)
    requires k < |after| && after[k].event.Woken? && forall i | 0 <= i < k :: !after[i].event.Woken?
    ensures var s := Run(Fresh(v, max), before);
            var t := Run(Fresh(v, max), before + after[..k + 1]);
            if after[k].world.updateThrows
            then t.pc.ErrorHook? && t.trace == s.trace + [Hook(OnError)]
            else t.pc.Done? && t.trace == s.trace + [Destroy]
  {
    hide Run, Next, Good;
    var s := Run(Fresh(v, max), before);
    FreshIsGood(v, max);
    RunKeeps(Fresh(v, max), before);
    assert after[..k + 1] == after[..k] + [after[k]];
    RunAppend(Fresh(v, max), before, after[..k + 1]);
    RunAppend(s, after[..k], [after[k]]);
    assert forall i | 0 <= i < k :: after[..k][i] == after[i];
    WaitingRuns(s, after[..k]);
    RunOne(s, after[k]);
    KilledWakes(after[k].world, s);
  }
}
