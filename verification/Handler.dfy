/** handleRequest in its own form (src/core/request-handler.ts): the code between two waits as methods that
    update the flow object, proved to take the steps of the machine in Pipeline. */
module Handler {
  import opened Prelude
  import opened Headers
  import opened FlowModel
  import opened Encoding
  import opened Rules
  import opened Streaming
  import opened Pipeline

  class Exchange {
    const flow: Flow
    var pc: Pc
    var answer: Option<Action>
    /** What has been done to the client, the upstream and the hooks, in order. */
    var trace: seq<Effect>
    const max: nat
    /** The copy that streamResponse makes of a body; each streamed response begins a new one. */
    var tee: Tee
    /** bodyTruncated of the response. */
    var truncated: bool
    /** Headers set on the response to the client with a head that was refused. */
    var placed: Outgoing
    /** The message on the flow's error. */
    var error: seq<byte>

    constructor (flow: Flow, max: nat)
      requires flow.Valid() && flow.response.None? && !flow.pending
      ensures Valid() && this.flow == flow && fresh(tee) && Now() == Fresh(flow.Look(), max)
    {
      this.flow, this.max := flow, max;
      pc, answer, trace, truncated, placed, error := Start, None, [], false, map[], [];
      tee := new Tee(max);
      new;
      FreshIsGood(flow.Look(), max);
    }

    function Now(): State
      reads this, flow, tee
    {
      State(pc, flow.Look(), flow.pending, flow.intercepted, answer, trace, max, tee.Look(), truncated, placed,
            error)
    }

    /** The flow and the copy are in order. */
    ghost predicate Sound()
      reads this, flow, tee
    {
      flow.Valid() && tee.Valid() && tee.max == max
    }

    ghost predicate Valid()
      reads this, flow, tee
    {
      Sound() && Good(Now())
    }

    method Raise(w: World)
      modifies this`pc, this`trace, this`error
      ensures Now() == Pipeline.Raise(w, old(Now()))
    {
      error := w.message;
      trace := trace + [Hook(OnError)];
      pc := ErrorHook;
    }

    /** A hook or an edit has left the flow like this. */
    method Adopt(v: View)
      requires Sound()
      modifies flow`request, flow`response, flow`color, flow`appliedRules, flow`mocked
      ensures Sound() && Now() == Pipeline.Adopt(old(Now()), v)
    {
      flow.request, flow.color, flow.appliedRules, flow.mocked := v.request, v.color, v.appliedRules, v.mocked;
      if flow.response.Some? && v.response.Some? {
        flow.response := v.response;
      }
    }

    method Decide(d: Directive)
      requires Sound()
      modifies this`pc, this`trace, flow`response
      ensures Sound() && Now() == Pipeline.Decide(old(Now()), d)
    {
      if d.block {
        trace := trace + [Destroy];
        pc := Done;
      } else if d.mock.Some? {
        var m := d.mock.value;
        flow.response := Some(Response(m.status, m.headers, Some(m.body)));
        trace := trace + [Synthesize] + [Hook(OnResponseHeaders)];
        pc := MockHeadersHook;
      } else {
        trace := trace + [Contact(flow.request)];
        pc := Contacting;
      }
    }

    method Proceed(d: Directive)
      requires Sound()
      modifies this`pc, this`trace, flow`response
      ensures Sound() && Now() == Pipeline.Proceed(old(Now()), d)
    {
      if d.delayMs != 0 {
        pc := Delaying(d);
      } else {
        Decide(d);
      }
    }

    method Hold(w: World, next: Pc)
      requires Sound() && !flow.pending
      modifies this`pc, this`trace, this`answer, this`error, flow`intercepted, flow`pending, flow`pauses, flow`abandoned
      ensures Sound() && Now() == Pipeline.Hold(w, old(Now()), next)
    {
      if w.updateThrows {
        Raise(w);
      } else {
        flow.Intercept();
        trace := trace + [Pause];
        pc, answer := next, None;
      }
    }

    /** boundStored. */
    method Bound()
      requires Sound()
      modifies flow`request, flow`response
      ensures Sound() && flow.Look() == BoundFlow(old(flow.Look()), max)
    {
      if flow.request.body.Some? {
        flow.request := flow.request.(body := Some(BoundForStorage(flow.request.body.value, max).body));
      }
      if flow.response.Some? && flow.response.value.body.Some? {
        var r := flow.response.value;
        flow.response := Some(r.(body := Some(BoundForStorage(r.body.value, max).body)));
      }
    }

    method Write(w: World, status: int, sent: Sent)
      requires Sound()
      modifies this`pc, this`trace, this`truncated, this`placed, this`error, flow`request, flow`response
      ensures Sound() && Now() == Pipeline.Write(w, old(Now()), status, sent)
    {
      hide BoundFlow;
      if !w.accepts(status, sent.headers) {
        placed := w.keeps(status, sent.headers);
        Raise(w);
        return;
      }
      trace := trace + [Reply(status, sent)];
      truncated := TooLong(Now());
      Bound();
      if w.updateThrows {
        Raise(w);
      } else {
        pc := Done;
      }
    }

    method Relay(w: World, raw: seq<byte>, decoded: seq<byte>)
      requires Sound() && flow.response.Some?
      modifies this`pc, this`trace, this`truncated, this`placed, this`error, flow`request, flow`response
      ensures Sound() && Now() == Pipeline.Relay(w, old(Now()), raw, decoded)
    {
      hide Pipeline.Write, WriteResponse;
      var r := flow.response.value;
      if r.body.Some? && r.body.value != decoded {
        flow.response := Some(r.(headers := HDelete(r.headers, CE)));
        Write(w, Orr(r.statusCode, 200), WriteResponse(flow.response.value.headers, r.body.value));
      } else {
        Write(w, Orr(r.statusCode, 200), WriteResponse(r.headers, raw));
      }
    }

    /** The request hooks are done: rules, breakpoint, and on. */
    method Requested(w: World)
      requires Sound() && !flow.pending
      modifies this`pc, this`answer, this`trace, this`truncated, this`placed, this`error, flow
      ensures Sound()
      ensures Now() == Pipeline.AfterHook(w, old(Now()).(pc := RequestHook))
    {
      hide Rules.Requested, Pipeline.Proceed;
      pc := RequestHook;
      var engine := new RuleEngine(w.env, w.rules);
      var d := engine.ApplyRequest(flow);
      var held := w.breakpoint(flow.Look());
      trace := trace + [Ruled(d, held)];
      if held {
        Hold(w, RequestHeld(d));
      } else {
        Proceed(d);
      }
    }

    /** The response hooks on the head are done: stream, or collect the body first. */
    method Headed(w: World)
      requires Sound() && flow.response.Some?
      modifies this`pc, this`trace, this`tee, this`placed, this`error, flow`response, flow`appliedRules
      ensures Sound() && (tee == old(tee) || fresh(tee)) && Now() == Pipeline.Headed(w, old(Now()))
    {
      hide Responded, StreamHead, EncodingOf, IsDecodable;
      RespondedSome(w.env, flow.Look(), w.rules);
      var engine := new RuleEngine(w.env, w.rules);
      var headers := flow.response.value.headers;
      var rewrites := engine.HasResponseBodyRule(flow);
      var length := w.length(headers);
      if !rewrites && !w.responseHooks && !IsDecodable(EncodingOf(headers)) && !w.responseBreakpoint(flow.Look()) &&
         (w.eventStream(headers) || length.None? || length.value > STREAM_THRESHOLD)
      {
        engine.ApplyResponse(flow);
        var r := flow.response.value;
        var status := Orr(r.statusCode, 200);
        if !w.accepts(status, StreamHead(r.headers)) {
          placed := w.keeps(status, StreamHead(r.headers));
          Raise(w);
        } else {
          trace := trace + [StreamStart(status, StreamHead(r.headers))];
          tee := new Tee(max);
          pc := Relaying;
        }
      } else {
        pc := ReadingResponse;
      }
    }

    method Collected(w: World, raw: seq<byte>)
      requires Sound() && flow.response.Some?
      modifies this`pc, this`trace, flow`response, flow`appliedRules
      ensures Sound() && Now() == Pipeline.Collected(w, old(Now()), raw)
    {
      hide Responded, Decoded, EncodingOf;
      var r := flow.response.value;
      var decoded := Decoded(w.codec, raw, EncodingOf(r.headers));
      flow.response := Some(r.(body := Some(decoded)));
      var engine := new RuleEngine(w.env, w.rules);
      engine.ApplyResponse(flow);
      trace := trace + [Hook(OnResponse)];
      pc := ResponseHook(raw, decoded);
    }

    /** The hooks on a synthesized response. */
    method Mocked(w: World)
      requires Valid() && (pc.MockHeadersHook? || pc.MockResponseHook?)
      modifies this`pc, this`trace, this`truncated, this`placed, this`error, flow
      ensures Sound() && Now() == Pipeline.AfterHook(w, old(Now()))
    {
      hide Responded, Rules.Requested, Pipeline.Relay, Pipeline.Headed, Pipeline.Write, WriteResponse, HeadSent, Inv;
      if pc.MockHeadersHook? {
        var engine := new RuleEngine(w.env, w.rules);
        engine.ApplyResponse(flow);
        trace := trace + [Hook(OnResponse)];
        pc := MockResponseHook;
      } else {
        var r := flow.response.value;
        Write(w, Orr(r.statusCode, 200), WriteResponse(r.headers, OrEmpty(r.body)));
      }
    }

    method AfterHook(w: World)
      requires Valid() && RunsHook(pc)
      modifies this, flow
      ensures Sound() && (tee == old(tee) || fresh(tee)) && Now() == Pipeline.AfterHook(w, old(Now()))
    {
      hide Responded, Rules.Requested, Pipeline.Relay, Pipeline.Headed, Pipeline.Write, WriteResponse, HeadSent;
      hide Complaint, Lawful, HooksOf;
      match pc
      case RequestHeadersHook => pc := ReadingRequest;
      case RequestHook => Requested(w);
      case MockHeadersHook => Mocked(w);
      case MockResponseHook => Mocked(w);
      case ResponseHeadersHook => Headed(w);
      case ResponseHook(raw, decoded) =>
        if w.responseBreakpoint(flow.Look()) {
          Hold(w, ResponseHeld(raw, decoded));
        } else {
          Relay(w, raw, decoded);
        }
      case ErrorHook => Apologize();
    }

    /** The end of the catch block: an answer if there has been no head, the end of the response otherwise. */
    method Apologize()
      requires Sound()
      modifies this`pc, this`trace
      ensures Sound() && pc == Done
      ensures trace == old(trace) + [if HeadSent(old(trace)) then Close else Notice(502, Complaint(old(Now())))]
    {
      trace := trace + [if HeadSent(trace) then Close else Notice(502, Complaint(Now()))];
      pc := Done;
    }

    method Woken(w: World)
      requires Valid()
      modifies this`pc, this`answer, this`trace, this`truncated, this`placed, this`error, flow
      ensures Sound() && Now() == Resumption(w, old(Now()))
    {
      hide Pipeline.Proceed, Pipeline.Relay, Lawful, HookInv, TraceInv, Teed;
      if answer.None? {
        return;
      }
      var action := answer.value;
      answer := None;
      if w.updateThrows {
        Raise(w);
      } else if action.Killed? {
        trace := trace + [Destroy];
        pc := Done;
      } else if pc.RequestHeld? {
        Proceed(pc.directive);
      } else {
        Relay(w, pc.raw, pc.decoded);
      }
    }

    method Arrived(w: World, bytes: seq<byte>)
      requires Valid()
      modifies this`pc, this`answer, this`trace, this`truncated, this`placed, this`error, flow
      ensures Sound() && Now() == Next(w, old(Now()), Body(bytes))
    {
      hide Pipeline.Collected, IsDecodable, DecodeBody, EncodingOf, Lawful, HookInv, TraceInv, Teed, HDelete;
      hide Pipeline.AfterHook, Resumption, Pipeline.Decide;
      if pc.ReadingRequest? {
        var q := flow.request;
        flow.request := q.(body := Some(bytes));
        if IsDecodable(EncodingOf(q.headers)) {
          flow.request := q.(body := Some(DecodeBody(w.codec, bytes, EncodingOf(q.headers))),
                             headers := HDelete(q.headers, CE));
        }
        trace := trace + [Hook(OnRequest)];
        pc := RequestHook;
      } else if pc.ReadingResponse? {
        Collected(w, bytes);
      }
    }

    /** resume and kill on the flow, with the resolver they call. */
    method Answered(a: Action)
      requires Sound()
      modifies this`answer, this`trace, flow`intercepted, flow`pending, flow`answers
      ensures Sound() && Now() == Pipeline.Answered(old(Now()), a)
    {
      if flow.pending {
        answer := Some(a);
        trace := trace + [Answer(a)];
      }
      if a.Resumed? {
        flow.Resume();
      } else {
        flow.Kill();
      }
    }

    method Began(w: World, target: Option<Request>)
      requires Valid()
      modifies this`pc, this`answer, this`trace, this`truncated, this`placed, this`error, flow
      ensures Sound() && Now() == Next(w, old(Now()), Begin(target))
    {
      hide Good, Pipeline.AfterHook;
      if pc.Start? {
        if target.Some? {
          flow.request := target.value;
          trace := trace + [Hook(OnRequestHeaders)];
          pc := RequestHeadersHook;
        } else {
          trace := trace + [Notice(400, Sent(map[], BAD_TARGET))];
          pc := Done;
        }
      }
    }

    method Answering(w: World, head: Response)
      requires Valid()
      modifies this`pc, this`answer, this`trace, this`truncated, this`placed, this`error, flow
      ensures Sound() && Now() == Next(w, old(Now()), Upstream(head))
    {
      hide Good, Pipeline.AfterHook;
      if pc.Contacting? {
        flow.response := Some(head.(body := None));
        trace := trace + [Hook(OnResponseHeaders)];
        pc := ResponseHeadersHook;
      }
    }

    method Chunked(w: World, bytes: seq<byte>)
      requires Valid()
      modifies this`trace, tee
      ensures Sound() && Now() == Next(w, old(Now()), Chunk(bytes))
    {
      hide Good, Pipeline.AfterHook, Teed, TapChunk;
      if pc.Relaying? {
        trace := trace + [Data(bytes)];
        tee.OnData(bytes);
      }
    }

    /** The end of the streamed body, or its failure. */
    method Finished()
      requires Sound()
      modifies this`pc, this`trace, this`truncated, flow`response
      ensures Sound() && Now() == Pipeline.Finished(old(Now()))
    {
      hide Teed;
      trace := trace + [Close];
      var stored := tee.Finish();
      if flow.response.Some? {
        flow.response := Some(flow.response.value.(body := Some(stored.body)));
      }
      truncated := stored.truncated;
      pc := Done;
    }

    method Stopped(w: World, failed: bool)
      requires Valid()
      modifies this`pc, this`trace, this`truncated, this`error, flow`response
      ensures Sound() && Now() == Next(w, old(Now()), if failed then Failed else Ended)
    {
      hide Good, Pipeline.AfterHook, Pipeline.Finished;
      if pc.Relaying? {
        Finished();
      } else if failed && (pc.ReadingRequest? || pc.Contacting? || pc.ReadingResponse?) {
        Raise(w);
      }
    }

    /** Whatever happens next. */
    method On(w: World, e: Event)
      requires Valid()
      modifies this, flow, tee
      ensures Valid() && (tee == old(tee) || fresh(tee)) && Now() == Next(w, old(Now()), e)
    {
      NextKeeps(w, Now(), e);
      hide Good, Pipeline.AfterHook, Resumption, Pipeline.Decide, WithRequestBody, Pipeline.Collected;
      match e
      case Begin(target) => Began(w, target);
      case Hooked(v) =>
        if RunsHook(pc) {
          AdoptKeeps(Now(), v);
          Adopt(v);
          AfterHook(w);
        }
      case Body(bytes) => Arrived(w, bytes);
      case Upstream(head) => Answering(w, head);
      case Elapsed =>
        if pc.Delaying? {
          Decide(pc.directive);
        }
      case Woken => Woken(w);
      case Resume => Answered(Resumed);
      case Kill => Answered(Killed);
      case Edit(v) =>
        if flow.pending {
          Adopt(v);
        }
      case Chunk(bytes) => Chunked(w, bytes);
      case Ended => Stopped(w, false);
      case Failed => Stopped(w, true);
    }
  }
}
