/** The choices that handleRequest makes (src/core/request-handler.ts): whether a response is streamed or collected,
    and whether the request waits before it goes on. */
module PipelineChoices {
  import opened Prelude
  import opened Text
  import opened Headers
  import opened FlowModel
  import opened Encoding
  import opened Rules
  import opened Streaming
  import opened Pipeline
  import opened PipelineRuns

  // ---- streaming ----

  /** Nothing needs the whole body: no hook on responses, no matching rule that rewrites or gives a body, no matching
      breakpoint, no encoding to undo; and the response is an event stream, or its length is unknown or above 1 MB. */
  predicate NeedsNoBody(w: World, v: View)
    requires v.response.Some?
  {
    var headers := v.response.value.headers;
    var encoding := match HGet(headers, "content-encoding") case Some(e) => Lower(Trim(e)) case None => "";
    !w.responseHooks &&
    (forall i | 0 <= i < |w.rules| && w.rules[i].matches(v) ::
       !w.rules[i].op.ResReplace? && !w.rules[i].op.ResBody? && !w.rules[i].op.Mock? && !w.rules[i].op.File?) &&
    !w.responseBreakpoint(v) &&
    encoding != "gzip" && encoding != "x-gzip" && encoding != "deflate" && encoding != "br" &&
    (w.eventStream(headers) || w.length(headers).None? || w.length(headers).value > 1048576)
  }

  lemma MayStreamIff(w: World, v: View)
    requires v.response.Some?
    ensures MayStream(w, v) <==> NeedsNoBody(w, v)
  {
    hide HGet;
    NothingToDecode(v.response.value.headers);
    assert Trim("") == "" && Lower("") == "";
  }

  lemma NothingToDecode(headers: Fields)
    ensures var encoding := match HGet(headers, "content-encoding") case Some(e) => Lower(Trim(e)) case None => "";
            IsDecodable(EncodingOf(headers))
            <==> encoding == "gzip" || encoding == "x-gzip" || encoding == "deflate" || encoding == "br"
  {
    hide HGet, Lower, Trim;
    Empty();
  }

  lemma Empty()
    ensures Lower(Trim("")) == ""
  {}

  /** A stream begins on the way from s to n. */
  ghost predicate StreamBegins(s: State, n: State) {
    exists i | |s.trace| <= i < |n.trace| :: n.trace[i].StreamStart?
  }

  /** The handler waits for the hooks on the response head, and this is what they leave. */
  predicate AtHead(s: State, e: Event) {
    s.pc.ResponseHeadersHook? && e.Hooked? && Adopt(s, e.view).view.response.Some?
  }

  /** In every state that a run reaches: a stream begins only at the end of the hooks on the response head, when nothing
      needs the whole body; and then the body is collected if and only if something does. */
  lemma StreamsIff(v: View, max: nat, moments: seq<Moment>, w: World, e: Event)
    ensures var s := Run(Fresh(v, max), moments);
            var n := Next(w, s, e);
            (StreamBegins(s, n) ==> AtHead(s, e) && NeedsNoBody(w, Adopt(s, e.view).view)) &&
            (s.pc.ResponseHeadersHook? && e.Hooked? ==>
               AtHead(s, e) && (n.pc.ReadingResponse? <==> !NeedsNoBody(w, Adopt(s, e.view).view)) &&
               (!n.pc.ReadingResponse? && !n.pc.ErrorHook? ==> n.pc.Relaying? && StreamBegins(s, n)))
  {
    hide Good, Run, Next, NeedsNoBody, StreamBegins;
    FreshIsGood(v, max);
    RunKeeps(Fresh(v, max), moments);
    var s := Run(Fresh(v, max), moments);
    if s.pc.ResponseHeadersHook? && e.Hooked? {
      HeadHasResponse(s);
      MayStreamIff(w, Adopt(s, e.view).view);
      HeadChooses(w, s, e.view);
    } else {
      NoMark(false, w, s, e);
      NotBegun(s, Next(w, s, e));
    }
  }

  lemma HeadHasResponse(s: State)
    requires Good(s) && s.pc.ResponseHeadersHook?
    ensures s.view.response.Some?
  {
    hide Inv;
  }

  lemma HeadChooses(w: World, s: State, v: View)
    requires s.pc.ResponseHeadersHook? && s.view.response.Some?
    ensures var u := Adopt(s, v).view;
            var n := Next(w, s, Hooked(v));
            u.response.Some? && (n.pc.ReadingResponse? <==> !MayStream(w, u)) &&
            (StreamBegins(s, n) ==> MayStream(w, u)) &&
            (!n.pc.ReadingResponse? && !n.pc.ErrorHook? ==> n.pc.Relaying? && StreamBegins(s, n))
  {
    hide MayStream, Responded, StreamHead;
    var n := Next(w, s, Hooked(v));
    if n.pc.Relaying? {
      assert n.trace[|s.trace|].StreamStart?;
    }
  }

  /** The two effects that show a choice: the verdict of the rules, and the head of a stream. */
  predicate Mark(ruled: bool, e: Effect) {
    if ruled then e.Ruled? else e.StreamStart?
  }

  /** Something was done on the way from s to n, or nothing, but this was not. */
  ghost predicate Unmarked(ruled: bool, s: State, n: State) {
    s.trace <= n.trace && forall i | |s.trace| <= i < |n.trace| :: !Mark(ruled, n.trace[i])
  }

  /** At most two effects. */
  lemma AddsPlain(ruled: bool, s: State, n: State, e: Effect)
    requires n.trace == s.trace || n.trace == s.trace + [e] ||
             (exists x :: n.trace == s.trace + [x, e] && !Mark(ruled, x))
    requires !Mark(ruled, e)
    ensures Unmarked(ruled, s, n)
  {}

  lemma NotBegun(s: State, n: State)
    requires Unmarked(false, s, n)
    ensures !StreamBegins(s, n)
  {}

  /** Where it is done. */
  predicate Marker(ruled: bool, pc: Pc) {
    if ruled then pc.RequestHook? else pc.ResponseHeadersHook?
  }

  lemma NoMark(ruled: bool, w: World, s: State, e: Event)
    requires Good(s) && !(e.Hooked? && Marker(ruled, s.pc))
    ensures Unmarked(ruled, s, Next(w, s, e))
  {
    hide Good, AfterHook, Resumption, Decide, Responded, WithRequestBody, Decoded, TapChunk, Unmarked;
    if e.Hooked? && RunsHook(s.pc) {
      AdoptKeeps(s, e.view);
      HookNoMark(ruled, w, Adopt(s, e.view));
      SameStart(ruled, s, Adopt(s, e.view), Next(w, s, e));
    } else if e.Woken? {
      WakeNoMark(ruled, w, s);
    } else if e.Elapsed? && s.pc.Delaying? {
      DecideNoMark(ruled, s, s.pc.directive);
    } else {
      SimpleNoMark(ruled, w, s, e);
    }
  }

  lemma SameStart(ruled: bool, s: State, t: State, n: State)
    requires s.trace == t.trace
    ensures Unmarked(ruled, s, n) <==> Unmarked(ruled, t, n)
  {}

  lemma SimpleNoMark(ruled: bool, w: World, s: State, e: Event)
    requires !(e.Hooked? && RunsHook(s.pc)) && !e.Woken? && !(e.Elapsed? && s.pc.Delaying?)
    ensures Unmarked(ruled, s, Next(w, s, e))
  {
    hide Emit, Responded, WithRequestBody, Decoded, TapChunk, AfterHook, Resumption, Decide, Unmarked;
    hide RunsHook;
    var n := Next(w, s, e);
    var x := SimpleEffect(s, e);
    EmitTrace(s, x);
    AddsPlain(ruled, s, n, x);
  }

  /** What an event that runs no code between two waits does. */
  function SimpleEffect(s: State, e: Event): Effect {
    match e
    case Begin(target) =>
      if target.Some? then Hook(OnRequestHeaders) else Notice(400, Sent(map[], BAD_TARGET))
    case Body(_) => if s.pc.ReadingRequest? then Hook(OnRequest) else Hook(HookName.OnResponse)
    case Upstream(_) => Hook(OnResponseHeaders)
    case Chunk(bytes) => Data(bytes)
    case Failed => if s.pc.Relaying? then Close else Hook(OnError)
    case Resume => Answer(Resumed)
    case Kill => Answer(Killed)
    case _ => Close
  }

  lemma EmitTrace(s: State, e: Effect)
    ensures Emit(s, e).trace == s.trace + [e]
  {}

  lemma DecideNoMark(ruled: bool, s: State, d: Directive)
    ensures Unmarked(ruled, s, Decide(s, d))
  {
    var n := Decide(s, d);
    if d.block {
      AddsPlain(ruled, s, n, Destroy);
    } else if d.mock.Some? {
      assert n.trace == s.trace + [Synthesize, Hook(OnResponseHeaders)];
      AddsPlain(ruled, s, n, Hook(OnResponseHeaders));
    } else {
      AddsPlain(ruled, s, n, Contact(s.view.request));
    }
  }

  lemma ProceedNoMark(ruled: bool, s: State, d: Directive)
    ensures Unmarked(ruled, s, Proceed(s, d))
  {
    hide Decide;
    DecideNoMark(ruled, s, d);
  }

  lemma WriteNoMark(ruled: bool, w: World, s: State, status: int, sent: Sent)
    ensures Unmarked(ruled, s, Write(w, s, status, sent))
  {
    hide BoundFlow, TooLong;
    var n := Write(w, s, status, sent);
    if !w.accepts(status, sent.headers) {
      AddsPlain(ruled, s, n, Hook(OnError));
    } else if w.updateThrows {
      assert n.trace == s.trace + [Reply(status, sent), Hook(OnError)];
      AddsPlain(ruled, s, n, Hook(OnError));
    } else {
      AddsPlain(ruled, s, n, Reply(status, sent));
    }
  }

  lemma RelayNoMark(ruled: bool, w: World, s: State, raw: seq<byte>, decoded: seq<byte>)
    ensures Unmarked(ruled, s, Relay(w, s, raw, decoded))
  {
    hide Write, Relayed, HDelete, Unmarked;
    match s.view.response
    case None => AddsPlain(ruled, s, s, Close);
    case Some(r) =>
      var modified := r.body.Some? && r.body.value != decoded;
      var t := if modified then s.(view := s.view.(response := Some(r.(headers := HDelete(r.headers, CE))))) else s;
      WriteNoMark(ruled, w, t, Orr(r.statusCode, 200), Relayed(r.headers, r.body, raw, decoded));
      SameStart(ruled, s, t, Relay(w, s, raw, decoded));
  }

  lemma HoldNoMark(ruled: bool, w: World, s: State, pc: Pc)
    ensures Unmarked(ruled, s, Hold(w, s, pc))
  {
    var n := Hold(w, s, pc);
    AddsPlain(ruled, s, n, if w.updateThrows then Hook(OnError) else Pause);
  }

  /** After one effect more. */
  lemma AfterOne(ruled: bool, s: State, t: State, n: State, e: Effect)
    requires t.trace == s.trace + [e] && !Mark(ruled, e) && Unmarked(ruled, t, n)
    ensures Unmarked(ruled, s, n)
  {
    assert n.trace[|s.trace|] == e;
  }

  lemma HeadedNoMark(w: World, s: State)
    ensures Unmarked(true, s, Headed(w, s))
  {
    hide MayStream, Responded, StreamHead;
    var n := Headed(w, s);
    if n.trace == s.trace {
      AddsPlain(true, s, n, Close);
    } else {
      assert n.trace == s.trace + [n.trace[|s.trace|]];
      AddsPlain(true, s, n, n.trace[|s.trace|]);
    }
  }

  lemma RequestNoMark(w: World, s: State)
    requires s.pc.RequestHook?
    ensures Unmarked(false, s, AfterHook(w, s))
  {
    hide Proceed, Hold, Requested, Unmarked, Emit;
    var (v, d) := Requested(w.env, s.view, w.rules);
    var e := Ruled(d, w.breakpoint(v));
    var t := Emit(s.(view := v), e);
    EmitTrace(s.(view := v), e);
    HoldNoMark(false, w, t, RequestHeld(d));
    ProceedNoMark(false, t, d);
    AfterOne(false, s, t, AfterHook(w, s), e);
  }

  lemma HookNoMark(ruled: bool, w: World, s: State)
    requires Good(s) && RunsHook(s.pc) && !Marker(ruled, s.pc)
    ensures Unmarked(ruled, s, AfterHook(w, s))
  {
    hide Good, Proceed, Hold, Relay, Write, Headed, Requested, Responded, WriteResponse, Complaint, HeadSent, Unmarked;
    hide Emit, Adopt;
    var n := AfterHook(w, s);
    match s.pc
    case RequestHeadersHook => AddsPlain(ruled, s, n, Close);
    case RequestHook =>
      RequestNoMark(w, s);
    case MockHeadersHook =>
      EmitTrace(s, Hook(HookName.OnResponse));
      AddsPlain(ruled, s, n, Hook(HookName.OnResponse));
    case MockResponseHook =>
      match s.view.response {
        case None => AddsPlain(ruled, s, n, Close);
        case Some(r) => WriteNoMark(ruled, w, s, Orr(r.statusCode, 200), WriteResponse(r.headers, OrEmpty(r.body)));
      }
    case ResponseHeadersHook => HeadedNoMark(w, s);
    case ResponseHook(raw, decoded) =>
      HoldNoMark(ruled, w, s, ResponseHeld(raw, decoded));
      RelayNoMark(ruled, w, s, raw, decoded);
    case ErrorHook =>
      var e := if HeadSent(s.trace) then Close else Notice(502, Complaint(s));
      EmitTrace(s, e);
      AddsPlain(ruled, s, n, e);
  }

  lemma WakeNoMark(ruled: bool, w: World, s: State)
    ensures Unmarked(ruled, s, Resumption(w, s))
  {
    hide Proceed, Relay, Unmarked;
    var n := Resumption(w, s);
    if s.answer.None? {
      AddsPlain(ruled, s, n, Close);
    } else if w.updateThrows {
      AddsPlain(ruled, s, n, Hook(OnError));
    } else if s.answer.value.Killed? {
      AddsPlain(ruled, s, n, Destroy);
    } else {
      var t := s.(answer := None);
      match s.pc
      case RequestHeld(d) =>
        ProceedNoMark(ruled, t, d);
        SameStart(ruled, s, t, n);
      case ResponseHeld(raw, decoded) =>
        RelayNoMark(ruled, w, t, raw, decoded);
        SameStart(ruled, s, t, n);
      case _ => AddsPlain(ruled, s, n, Close);
    }
  }

  // ---- delays ----

  /** The rules have asked for a delay. */
  ghost predicate Delayed(t: seq<Effect>) {
    exists i | 0 <= i < |t| :: t[i].Ruled? && t[i].directive.delayMs != 0
  }

  /** The request goes on: to the upstream, to a made-up response, or to being blocked. */
  predicate GoesOn(t: seq<Effect>, i: nat)
    requires i < |t|
  {
    t[i].Contact? || t[i].Synthesize? || (t[i].Destroy? && !(i > 0 && t[i - 1] == Answer(Killed)))
  }

  ghost predicate WentOn(t: seq<Effect>) {
    exists i | 0 <= i < |t| :: GoesOn(t, i)
  }

  /** It has not gone on, and if a delay was asked for it is held, waits, or is over. */
  ghost predicate Waits(s: State) {
    Delayed(s.trace) ==>
      !WentOn(s.trace) &&
      match s.pc
      case RequestHeld(d) => d.delayMs != 0
      case Delaying(_) => true
      case ErrorHook => true
      case Done => true
      case _ => false
  }

  lemma OneMore(t: seq<Effect>, e: Effect)
    ensures Delayed(t + [e]) <==> Delayed(t) || (e.Ruled? && e.directive.delayMs != 0)
    ensures WentOn(t + [e])
            <==> WentOn(t) || e.Contact? || e.Synthesize? || (e.Destroy? && !LastIs(t, Answer(Killed)))
  {
    var u := t + [e];
    assert u[|t|] == e;
    assert forall i | 0 <= i < |t| :: u[i] == t[i];
    forall i: nat | i < |t|
      ensures GoesOn(u, i) <==> GoesOn(t, i)
    {
      assert i > 0 ==> u[i - 1] == t[i - 1];
    }
    assert GoesOn(u, |t|) <==> e.Contact? || e.Synthesize? || (e.Destroy? && !LastIs(t, Answer(Killed)));
  }

  lemma QuietHasNotGone(t: seq<Effect>)
    requires Quiet(t)
    ensures !WentOn(t) && !LastIs(t, Answer(Killed))
  {}

  /** Without a delay asked for there is nothing to show. */
  lemma NotDelayed(s: State)
    requires !Delayed(s.trace)
    ensures Waits(s)
  {}

  lemma ProceedWaits(s: State, d: Directive)
    requires d.delayMs != 0 && !WentOn(s.trace)
    ensures Waits(Proceed(s, d)) && Proceed(s, d).pc == Delaying(d)
  {
    hide Delayed, WentOn;
  }

  lemma HoldWaits(w: World, s: State, d: Directive)
    requires d.delayMs != 0 && !WentOn(s.trace)
    ensures Waits(Hold(w, s, RequestHeld(d)))
  {
    hide Delayed, WentOn;
    OneMore(s.trace, Pause);
    OneMore(s.trace, Hook(OnError));
  }

  /** The verdict of the rules: a delay holds the request up, whether there is a breakpoint or not. */
  lemma RuledWaits(w: World, s: State)
    requires Good(s) && s.pc.RequestHook? && !Delayed(s.trace)
    ensures Waits(AfterHook(w, s))
  {
    hide Lawful, HookInv, Delayed, WentOn, Quiet, Unruled, Asked, Passed, Requested, Proceed, Hold;
    QuietHasNotGone(s.trace);
    var (v, d) := Requested(w.env, s.view, w.rules);
    var e := Ruled(d, w.breakpoint(v));
    var t := Emit(s.(view := v), e);
    OneMore(s.trace, e);
    if d.delayMs != 0 {
      HoldWaits(w, t, d);
      ProceedWaits(t, d);
    } else {
      HoldNoMark(true, w, t, RequestHeld(d));
      ProceedNoMark(true, t, d);
      NoneAdded(t, AfterHook(w, s));
      NotDelayed(AfterHook(w, s));
    }
  }

  lemma NoneAdded(s: State, n: State)
    requires Unmarked(true, s, n) && !Delayed(s.trace)
    ensures !Delayed(n.trace)
  {
    assert forall i | 0 <= i < |s.trace| :: n.trace[i] == s.trace[i];
  }

  /** Every event but the end of the wait. */
  lemma StepWaits(w: World, s: State, e: Event)
    requires Good(s) && Waits(s) && Delayed(s.trace) && !e.Elapsed?
    ensures Waits(Next(w, s, e))
  {
    hide Lawful, HookInv, TraceInv, Delayed, WentOn, HeadSent, Complaint, Proceed;
    var n := Next(w, s, e);
    OneMore(s.trace, Answer(Resumed));
    OneMore(s.trace, Answer(Killed));
    OneMore(s.trace, Destroy);
    OneMore(s.trace, Hook(OnError));
    OneMore(s.trace, Close);
    OneMore(s.trace, Notice(502, Complaint(s)));
    if s.pc.RequestHeld? && s.answer.Some? && e.Woken? {
      HeldWaits(w, s);
    } else if s.pc.ErrorHook? && e.Hooked? {
      ErrorWaits(w, s, e.view);
    }
  }

  lemma HeldWaits(w: World, s: State)
    requires Good(s) && Waits(s) && Delayed(s.trace) && s.pc.RequestHeld? && s.answer.Some?
    ensures Waits(Resumption(w, s))
  {
    hide Lawful, HookInv, TraceInv, Delayed, WentOn, Proceed;
    OneMore(s.trace, Destroy);
    OneMore(s.trace, Hook(OnError));
    ProceedWaits(s.(answer := None), s.pc.directive);
  }

  lemma ErrorWaits(w: World, s: State, v: View)
    requires Waits(s) && Delayed(s.trace) && s.pc.ErrorHook?
    ensures Waits(Next(w, s, Hooked(v)))
  {
    hide Delayed, WentOn, HeadSent, Complaint;
    var t := Adopt(s, v);
    OneMore(s.trace, if HeadSent(s.trace) then Close else Notice(502, Complaint(t)));
  }

  /** No delay has been asked for yet; one may be now. */
  lemma StepStarts(w: World, s: State, e: Event)
    requires Good(s) && !Delayed(s.trace)
    ensures Waits(Next(w, s, e))
  {
    hide Good, Delayed, WentOn, AfterHook, Resumption, Decide, Next;
    if s.pc.RequestHook? && e.Hooked? {
      AdoptKeeps(s, e.view);
      RuledWaits(w, Adopt(s, e.view));
      HookNext(w, s, e.view);
    } else {
      NoMark(true, w, s, e);
      NoneAdded(s, Next(w, s, e));
      NotDelayed(Next(w, s, e));
    }
  }

  lemma HookNext(w: World, s: State, v: View)
    requires RunsHook(s.pc)
    ensures Next(w, s, Hooked(v)) == AfterHook(w, Adopt(s, v))
  {
    hide AfterHook;
  }

  lemma {:induction false} RunWaits(s: State, moments: seq<Moment>)
    requires Good(s) && Waits(s) && forall i | 0 <= i < |moments| :: !moments[i].event.Elapsed?
    ensures Waits(Run(s, moments))
    decreases |moments|
  {
    hide Good, Waits, Next, Delayed;
    if moments != [] {
      var m := moments[0];
      var n := Next(m.world, s, m.event);
      if Delayed(s.trace) {
        StepWaits(m.world, s, m.event);
      } else {
        StepStarts(m.world, s, m.event);
      }
      NextKeeps(m.world, s, m.event);
      assert forall i | 0 <= i < |moments[1..]| :: moments[1..][i] == moments[i + 1];
      RunWaits(n, moments[1..]);
    }
  }

  /** In every run: when the rules ask for a delay, the request is not sent, answered by a made-up response, or cut off
      as blocked, before the wait has ended. */
  lemma DelayWaits(v: View, max: nat, before: seq<Moment>, after: seq<Moment>)
    requires forall i | 0 <= i < |Run(Fresh(v, max), before).trace| :: !Run(Fresh(v, max), before).trace[i].Ruled?
    requires var t := Run(Fresh(v, max), before + after).trace;
             (exists i | 0 <= i < |t| :: t[i].Ruled? && t[i].directive.delayMs != 0) &&
             (exists i | 0 <= i < |t| :: GoesOn(t, i))
    ensures exists k | 0 <= k < |after| :: after[k].event.Elapsed?
  {
    hide Good, Run, Waits;
    var s := Run(Fresh(v, max), before);
    FreshIsGood(v, max);
    RunKeeps(Fresh(v, max), before);
    RunAppend(Fresh(v, max), before, after);
    if forall k | 0 <= k < |after| :: !after[k].event.Elapsed? {
      NotDelayed(s);
      RunWaits(s, after);
      GoneOn(Run(s, after));
    }
  }

  lemma GoneOn(s: State)
    requires Delayed(s.trace) && WentOn(s.trace)
    ensures !Waits(s)
  {}

  /** In every state that a run reaches the handler waits only for a delay that the rules asked for, and when the rules
      ask for none it does not wait after them. */
  lemma NoDelayNoWait(v: View, max: nat, moments: seq<Moment>)
    ensures var s := Run(Fresh(v, max), moments);
            s.pc.Delaying? ==>
              exists i | 0 <= i < |s.trace| ::
                s.trace[i].Ruled? && s.trace[i].directive == s.pc.directive && s.trace[i].directive.delayMs != 0
  {
    hide Run, Lawful, HookInv, PauseInv;
    FreshIsGood(v, max);
    RunKeeps(Fresh(v, max), moments);
    RunDelays(Fresh(v, max), moments);
    var s := Run(Fresh(v, max), moments);
    if s.pc.Delaying? {
      var d := s.pc.directive;
      var i :| 0 <= i < |s.trace| && s.trace[i].Ruled? && s.trace[i].directive == d;
      assert s.trace[i].directive.delayMs != 0;
    }
  }

  predicate DelaysOnly(s: State) {
    s.pc.Delaying? ==> s.pc.directive.delayMs != 0
  }

  lemma {:induction false} RunDelays(s: State, moments: seq<Moment>)
    requires DelaysOnly(s)
    ensures DelaysOnly(Run(s, moments))
    decreases |moments|
  {
    hide Next, DelaysOnly;
    if moments != [] {
      DelaysStep(moments[0].world, s, moments[0].event);
      RunDelays(Next(moments[0].world, s, moments[0].event), moments[1..]);
    }
  }

  lemma EmitStays()
    ensures forall s, e :: Emit(s, e).pc == s.pc
  {}

  lemma DelaysStep(w: World, s: State, e: Event)
    requires DelaysOnly(s)
    ensures DelaysOnly(Next(w, s, e))
  {
    hide Emit, Requested, Responded, WriteResponse, Relayed, BoundFlow, TooLong, MayStream, StreamHead, HeadSent;
    hide Decoded, DecodeBody, IsDecodable, TapChunk, HDelete, Complaint, WithRequestBody, EncodingOf;
    EmitStays();
  }

  // ---- the end of the request phase ----

  /** When the request hooks are done: the rules decide on the flow as the hooks left it, and the breakpoint is asked
      about what they made of it. A match pauses the flow, before any delay. Without one, and without a delay, the
      request is cut off when it is blocked, else answered by the made-up response if there is one, else sent upstream
      as the flow shows it. */
  lemma RequestPhase(w: World, s: State, left: View)
    requires s.pc.RequestHook?
    ensures var n := Next(w, s, Hooked(left));
            var (v, d) := Requested(w.env, Adopt(s, left).view, w.rules);
            var ruled := s.trace + [Ruled(d, w.breakpoint(v))];
            if w.breakpoint(v) then
              n.view == v &&
              (if w.updateThrows then n.trace == ruled + [Hook(OnError)]
               else n.trace == ruled + [Pause] && n.pc == RequestHeld(d) && n.resolver && n.intercepted)
            else if d.delayMs != 0 then n.view == v && n.trace == ruled && n.pc == Delaying(d)
            else
              Settled(n, v, d, ruled)
  {
    hide Requested;
    var t := Adopt(s, left);
    var (v, d) := Requested(w.env, t.view, w.rules);
    DecideSettles(Emit(t.(view := v), Ruled(d, w.breakpoint(v))), d);
  }

  /** And so when the wait is over. */
  lemma DelayPhase(w: World, s: State)
    requires s.pc.Delaying?
    ensures Settled(Next(w, s, Elapsed), s.view, s.pc.directive, s.trace)
  {
    DecideSettles(s, s.pc.directive);
  }

  /** The request goes one of three ways. */
  ghost predicate Settled(n: State, v: View, d: Directive, before: seq<Effect>) {
    if d.block then n.view == v && n.trace == before + [Destroy] && n.pc.Done?
    else match d.mock
      case Some(m) =>
        n.trace == before + [Synthesize, Hook(OnResponseHeaders)] && n.pc.MockHeadersHook? &&
        n.view == v.(response := Some(Response(m.status, m.headers, Some(m.body))))
      case None => n.view == v && n.trace == before + [Contact(v.request)] && n.pc.Contacting?
  }

  lemma DecideSettles(s: State, d: Directive)
    ensures Settled(Decide(s, d), s.view, d, s.trace)
  {
    assert s.trace + [Synthesize] + [Hook(OnResponseHeaders)] == s.trace + [Synthesize, Hook(OnResponseHeaders)];
  }

  /** The head of the upstream's response is recorded without a body, and goes through its hooks. */
  lemma UpstreamPhase(w: World, s: State, head: Response)
    requires s.pc.Contacting?
    ensures var n := Next(w, s, Upstream(head));
            n.pc.ResponseHeadersHook? && n.trace == s.trace + [Hook(OnResponseHeaders)] &&
            n.view == s.view.(response := Some(Response(head.statusCode, head.headers, None)))
  {}
}
