/** One request through handleRequest (src/core/request-handler.ts): a machine whose states are the points
    where the handler waits, driven by whatever happens next. */
module Pipeline {
  import opened Prelude
  import opened Text
  import opened Headers
  import opened FlowModel
  import opened Encoding
  import opened Numbers
  import opened Rules
  import opened Streaming

  datatype HookName = OnRequestHeaders | OnRequest | OnResponseHeaders | OnResponse | OnError

  /** Where the handler waits. */
  datatype Pc =
    | Start
    | RequestHeadersHook
    | ReadingRequest
    | RequestHook
    | RequestHeld(directive: Directive)
    | Delaying(directive: Directive)
    | MockHeadersHook
    | MockResponseHook
    | Contacting
    | ResponseHeadersHook
    | Relaying
    | ReadingResponse
    | ResponseHook(raw: seq<byte>, decoded: seq<byte>)
    | ResponseHeld(raw: seq<byte>, decoded: seq<byte>)
    | ErrorHook
    | Done

  /** What the handler does, in order: Ruled is what the rules ask for and whether the breakpoint matches. */
  datatype Effect =
    | Hook(name: HookName)
    | Ruled(directive: Directive, held: bool)
    | Pause
    | Answer(action: Action)
    | Synthesize
    | Contact(request: Request)
    | Notice(status: int, sent: Sent)
    | Reply(status: int, sent: Sent)
    | StreamStart(status: int, headers: Outgoing)
    | Data(bytes: seq<byte>)
    | Close
    | Destroy

  /** A request in flight. The resolver is what resume and kill call; max is read when the request comes in; the tap
      is the bounded copy of a streamed body, and truncated the flag of the recorded response; placed are headers set
      on the response to the client with a head that was refused, and error what the catch block caught. */
  datatype State = State(pc: Pc, view: View, resolver: bool, intercepted: bool, answer: Option<Action>,
                         trace: seq<Effect>, max: nat, tap: Tap, truncated: bool, placed: Outgoing, error: seq<byte>)

  /** What happens next. Hooks and edits leave the flow as they like. */
  datatype Event =
    | Begin(target: Option<Request>)
    | Hooked(view: View)
    | Body(bytes: seq<byte>)
    | Upstream(head: Response)
    | Chunk(bytes: seq<byte>)
    | Ended
    | Failed
    | Elapsed
    | Woken
    | Resume
    | Kill
    | Edit(view: View)

  /** The settings when it happens: rules and breakpoints can change while a request is in flight. accepts
      says whether Node takes a head, and keeps which headers of a refused one are set by then: all of them when it is
      the status that is refused. updateThrows says that a listener of the store throws, and message is the text of
      whatever is thrown now. */
  datatype World = World(env: Env, codec: Codec, rules: seq<Rule>, breakpoint: View -> bool,
                         responseBreakpoint: View -> bool, responseHooks: bool, eventStream: Fields -> bool,
                         length: Fields -> Option<int>, accepts: (int, Outgoing) -> bool,
                         keeps: (int, Outgoing) -> Outgoing, updateThrows: bool, message: seq<byte>)

  datatype Moment = Moment(world: World, event: Event)

  predicate IsHead(e: Effect) {
    e.Notice? || e.Reply? || e.StreamStart?
  }

  predicate HeadSent(trace: seq<Effect>) {
    exists i | 0 <= i < |trace| :: IsHead(trace[i])
  }

  function Emit(s: State, e: Effect): State {
    s.(trace := s.trace + [e])
  }

  /** The catch block: the error is recorded and its hook runs. */
  function Raise(w: World, s: State): State {
    Emit(s, Hook(OnError)).(pc := ErrorHook, error := w.message)
  }

  /** The bytes of an ASCII text. */
  function Ascii(text: string): (r: seq<byte>)
    ensures |r| == |text|
  {
    seq(|text|, i requires 0 <= i < |text| => ToByte(text[i] as int))
  }

  const BAD_TARGET: seq<byte> := Ascii("cnproxy: bad request target")
  const TROUBLE: seq<byte> := Ascii("cnproxy upstream error: ")

  /** The answer to an error: its head is written over the headers that a refused one has left behind. */
  function Complaint(s: State): Sent {
    Sent(s.placed["content-type" := ["text/plain"]], TROUBLE + s.error)
  }

  /** Hooks and edits change the flow, but whether it has a response is up to the handler. */
  function Adopt(s: State, v: View): State {
    s.(view := v.(response := if s.view.response.Some? && v.response.Some? then v.response else s.view.response))
  }

  /** A body as recorded on the request: decoded, and the encoding header dropped with it. */
  function WithRequestBody(codec: Codec, q: Request, raw: seq<byte>): Request {
    if IsDecodable(EncodingOf(q.headers))
    then q.(body := Some(DecodeBody(codec, raw, EncodingOf(q.headers))), headers := HDelete(q.headers, CE))
    else q.(body := Some(raw))
  }

  function Decide(s: State, d: Directive): State {
    if d.block then Emit(s, Destroy).(pc := Done)
    else match d.mock
      case Some(m) =>
        Emit(Emit(s, Synthesize), Hook(OnResponseHeaders))
        .(pc := MockHeadersHook, view := s.view.(response := Some(Response(m.status, m.headers, Some(m.body)))))
      case None => Emit(s, Contact(s.view.request)).(pc := Contacting)
  }

  function Proceed(s: State, d: Directive): State {
    if d.delayMs != 0 then s.(pc := Delaying(d)) else Decide(s, d)
  }

  /** The store is told, and then the flow waits for resume or kill. */
  function Hold(w: World, s: State, pc: Pc): State {
    if w.updateThrows then Raise(w, s)
    else Emit(s, Pause).(pc := pc, resolver := true, intercepted := true, answer := None)
  }

  function BoundFlow(v: View, max: nat): View {
    var request := BoundRequest(v.request, max);
    match v.response
    case Some(s) =>
      v.(request := request,
         response := Some(s.(body := match s.body
                                     case Some(b) => Some(BoundForStorage(b, max).body)
                                     case None => None)))
    case None => v.(request := request)
  }

  /** The flag that cutting the response body sets; without a body it stays as it is. */
  predicate TooLong(s: State) {
    if s.view.response.Some? && s.view.response.value.body.Some?
    then BoundForStorage(s.view.response.value.body.value, s.max).truncated else s.truncated
  }

  /** Node refuses the head, or takes it with the body; then bodies are cut and the store is told. */
  function Write(w: World, s: State, status: int, sent: Sent): State {
    if !w.accepts(status, sent.headers) then Raise(w, s.(placed := w.keeps(status, sent.headers)))
    else
      var r := Emit(s, Reply(status, sent)).(view := BoundFlow(s.view, s.max), truncated := TooLong(s));
      if w.updateThrows then Raise(w, r) else r.(pc := Done)
  }

  function OrEmpty(body: Option<seq<byte>>): seq<byte> {
    match body case Some(b) => b case None => []
  }

  function WriteMock(w: World, s: State): State {
    match s.view.response
    case Some(r) => Write(w, s, Orr(r.statusCode, 200), WriteResponse(r.headers, OrEmpty(r.body)))
    case None => s
  }

  /** The end of the buffered path. */
  function Relay(w: World, s: State, raw: seq<byte>, decoded: seq<byte>): State {
    match s.view.response
    case Some(r) =>
      var modified := r.body.Some? && r.body.value != decoded;
      var t := if modified then s.(view := s.view.(response := Some(r.(headers := HDelete(r.headers, CE))))) else s;
      Write(w, t, Orr(r.statusCode, 200), Relayed(r.headers, r.body, raw, decoded))
    case None => s
  }

  predicate MayStream(w: World, v: View)
    requires v.response.Some?
  {
    var headers := v.response.value.headers;
    CanStream(w.rules, w.responseHooks, w.responseBreakpoint, v, w.eventStream(headers), w.length(headers))
  }

  /** The response head has been through the hooks: stream, or collect the body first. */
  function Headed(w: World, s: State): State {
    match s.view.response
    case None => s
    case Some(r) =>
      if MayStream(w, s.view) then
        var v := Responded(w.env, s.view, w.rules);
        var status := match v.response case Some(x) => Orr(x.statusCode, 200) case None => 200;
        var headers := match v.response case Some(x) => StreamHead(x.headers) case None => map[];
        if !w.accepts(status, headers) then Raise(w, s.(view := v, placed := w.keeps(status, headers)))
        else Emit(s, StreamStart(status, headers)).(pc := Relaying, view := v, tap := UNTAPPED)
      else s.(pc := ReadingResponse)
  }

  function Collected(w: World, s: State, raw: seq<byte>): State {
    match s.view.response
    case None => s
    case Some(r) =>
      var decoded := Decoded(w.codec, raw, EncodingOf(r.headers));
      Emit(s, Hook(OnResponse))
      .(pc := ResponseHook(raw, decoded), view := Responded(w.env, WithBody(s.view, Some(decoded)), w.rules))
  }

  /** The end of the stream, or its failure: the client's response ends and the flow gets the copy. */
  function Finished(s: State): State {
    var t := Emit(s, Close).(pc := Done, truncated := s.tap.truncated);
    if s.view.response.Some? then t.(view := WithBody(s.view, Some(Concat(s.tap.captured)))) else t
  }

  /** After the answer: the store is told first, whatever the answer was. */
  function Resumption(w: World, s: State): State {
    match s.answer
    case None => s
    case Some(a) =>
      if w.updateThrows then Raise(w, s.(answer := None))
      else if a.Killed? then Emit(s, Destroy).(pc := Done, answer := None)
      else match s.pc
        case RequestHeld(d) => Proceed(s.(answer := None), d)
        case ResponseHeld(raw, decoded) => Relay(w, s.(answer := None), raw, decoded)
        case _ => s
  }

  function Answered(s: State, a: Action): State {
    if s.resolver then Emit(s, Answer(a)).(resolver := false, intercepted := false, answer := Some(a)) else s
  }

  predicate RunsHook(pc: Pc) {
    pc.RequestHeadersHook? || pc.RequestHook? || pc.MockHeadersHook? || pc.MockResponseHook? ||
    pc.ResponseHeadersHook? || pc.ResponseHook? || pc.ErrorHook?
  }

  function AfterHook(w: World, s: State): State {
    match s.pc
    case RequestHeadersHook => s.(pc := ReadingRequest)
    case RequestHook =>
      var (v, d) := Requested(w.env, s.view, w.rules);
      var t := Emit(s.(view := v), Ruled(d, w.breakpoint(v)));
      if w.breakpoint(v) then Hold(w, t, RequestHeld(d)) else Proceed(t, d)
    case MockHeadersHook =>
      Emit(s, Hook(OnResponse)).(pc := MockResponseHook, view := Responded(w.env, s.view, w.rules))
    case MockResponseHook => WriteMock(w, s)
    case ResponseHeadersHook => Headed(w, s)
    case ResponseHook(raw, decoded) =>
      if w.responseBreakpoint(s.view) then Hold(w, s, ResponseHeld(raw, decoded)) else Relay(w, s, raw, decoded)
    case ErrorHook => Emit(s, if HeadSent(s.trace) then Close else Notice(502, Complaint(s))).(pc := Done)
    case _ => s
  }

  /** One event. What the handler is not waiting for does nothing. */
  function Next(w: World, s: State, e: Event): State {
    match e
    case Begin(target) =>
      if s.pc != Start then s
      else (match target
            case None => Emit(s, Notice(400, Sent(map[], BAD_TARGET))).(pc := Done)
            case Some(q) => Emit(s, Hook(OnRequestHeaders)).(pc := RequestHeadersHook, view := s.view.(request := q)))
    case Hooked(v) => if RunsHook(s.pc) then AfterHook(w, Adopt(s, v)) else s
    case Body(bytes) =>
      (match s.pc
       case ReadingRequest =>
         Emit(s, Hook(OnRequest))
         .(pc := RequestHook, view := s.view.(request := WithRequestBody(w.codec, s.view.request, bytes)))
       case ReadingResponse => Collected(w, s, bytes)
       case _ => s)
    case Upstream(head) =>
      if s.pc != Contacting then s
      else Emit(s, Hook(OnResponseHeaders))
           .(pc := ResponseHeadersHook, view := s.view.(response := Some(head.(body := None))))
    case Chunk(bytes) =>
      if s.pc == Relaying then Emit(s, Data(bytes)).(tap := TapChunk(s.max, s.tap, bytes)) else s
    case Ended => if s.pc == Relaying then Finished(s) else s
    case Failed =>
      (match s.pc
       case ReadingRequest => Raise(w, s)
       case Contacting => Raise(w, s)
       case ReadingResponse => Raise(w, s)
       case Relaying => Finished(s)
       case _ => s)
    case Elapsed => (match s.pc case Delaying(d) => Decide(s, d) case _ => s)
    case Woken => Resumption(w, s)
    case Resume => Answered(s, Resumed)
    case Kill => Answered(s, Killed)
    case Edit(v) => if s.resolver then Adopt(s, v) else s
  }

  function Run(s: State, moments: seq<Moment>): State
    decreases |moments|
  {
    if moments == [] then s
    else Run(Next(moments[0].world, s, moments[0].event), moments[1..])
  }

  function Fresh(v: View, max: nat): State {
    State(Start, v.(response := None), false, false, None, [], max, UNTAPPED, false, map[], [])
  }

  // ---- what a trace may look like ----

  /** Only what may come before the upstream is contacted. */
  ghost predicate Quiet(trace: seq<Effect>) {
    forall i | 0 <= i < |trace| ::
      IsQuiet(trace[i])
  }

  predicate IsQuiet(e: Effect) {
    e == Hook(OnRequestHeaders) || e == Hook(OnRequest) || e.Ruled? || e == Pause || e == Answer(Resumed)
  }

  /** No head yet, and the connection still up. */
  ghost predicate Open(trace: seq<Effect>) {
    forall i | 0 <= i < |trace| :: !IsHead(trace[i]) && !trace[i].Destroy? && !trace[i].Close? && !trace[i].Data?
  }

  ghost predicate Destroyed(trace: seq<Effect>) {
    exists i | 0 <= i < |trace| :: trace[i].Destroy?
  }

  predicate LastIs(trace: seq<Effect>, e: Effect) {
    trace != [] && trace[|trace| - 1] == e
  }

  /** The rules have not been asked yet. */
  ghost predicate Unruled(trace: seq<Effect>) {
    forall i | 0 <= i < |trace| :: !trace[i].Ruled?
  }

  ghost predicate Asked(trace: seq<Effect>, d: Directive) {
    exists i | 0 <= i < |trace| :: trace[i].Ruled? && trace[i].directive == d
  }

  /** The rules asked for this, and a breakpoint that matched has been resumed since. */
  ghost predicate Passed(trace: seq<Effect>, d: Directive) {
    exists i | 0 <= i < |trace| ::
      trace[i].Ruled? && trace[i].directive == d &&
      (trace[i].held ==> exists k | i < k < |trace| :: trace[k] == Answer(Resumed))
  }

  /** The rules let the request go on in this way. */
  ghost predicate Granted(trace: seq<Effect>, mock: bool) {
    exists d :: Passed(trace, d) && !d.block && d.mock.Some? == mock
  }

  ghost predicate Refused(trace: seq<Effect>) {
    exists d :: Passed(trace, d) && d.block
  }

  /** An effect that may follow these. */
  ghost predicate May(before: seq<Effect>, e: Effect) {
    (e.Contact? ==> Quiet(before) && Granted(before, false)) &&
    (e.Synthesize? ==> Quiet(before) && Granted(before, true)) &&
    (e.Ruled? ==> Unruled(before)) &&
    (e.Destroy? ==> LastIs(before, Answer(Killed)) || Refused(before)) &&
    (IsHead(e) || e.Destroy? ==> Open(before)) &&
    (e.Answer? <==> LastIs(before, Pause)) &&
    (LastIs(before, Answer(Killed)) ==> e.Destroy? || e == Hook(OnError))
  }

  ghost predicate Lawful(trace: seq<Effect>) {
    forall i | 0 <= i < |trace| :: May(trace[..i], trace[i])
  }

  lemma LawfulSnoc(trace: seq<Effect>, e: Effect)
    requires Lawful(trace) && May(trace, e)
    ensures Lawful(trace + [e])
  {
    hide May;
    var t := trace + [e];
    forall i | 0 <= i < |t|
      ensures May(t[..i], t[i])
    {
      if i < |trace| {
        assert t[..i] == trace[..i] && t[i] == trace[i];
      } else {
        assert t[..i] == trace;
      }
    }
  }

  function HooksOf(trace: seq<Effect>): seq<HookName> {
    if trace == [] then []
    else
      var n := |trace| - 1;
      HooksOf(trace[..n]) + if trace[n].Hook? then [trace[n].name] else []
  }

  lemma HooksSnoc(trace: seq<Effect>, e: Effect)
    ensures HooksOf(trace + [e]) == if e.Hook? then HooksOf(trace) + [e.name] else HooksOf(trace)
  {
    assert (trace + [e])[..|trace|] == trace;
  }

  const ORDER: seq<HookName> := [OnRequestHeaders, OnRequest, OnResponseHeaders, OnResponse]

  /** A prefix of the order, and then perhaps the error hook. */
  ghost predicate Ordered(hooks: seq<HookName>) {
    hooks <= ORDER || (hooks != [] && hooks[|hooks| - 1] == OnError && hooks[..|hooks| - 1] <= ORDER)
  }

  /** How many of the ordered hooks have fired at a point where the handler waits. */
  function Fired(pc: Pc): nat {
    match pc
    case Start => 0
    case RequestHeadersHook => 1
    case ReadingRequest => 1
    case RequestHook => 2
    case RequestHeld(_) => 2
    case Delaying(_) => 2
    case Contacting => 2
    case MockHeadersHook => 3
    case ResponseHeadersHook => 3
    case Relaying => 3
    case ReadingResponse => 3
    case MockResponseHook => 4
    case ResponseHook(_, _) => 4
    case ResponseHeld(_, _) => 4
    case ErrorHook => 0
    case Done => 0
  }

  predicate Early(pc: Pc) {
    pc.Start? || pc.RequestHeadersHook? || pc.ReadingRequest? || pc.RequestHook? || pc.RequestHeld? || pc.Delaying?
  }

  predicate Held(pc: Pc) {
    pc.RequestHeld? || pc.ResponseHeld?
  }

  /** What every reachable state satisfies. */
  ghost predicate Inv(s: State) {
    Lawful(s.trace) && PauseInv(s) && HookInv(s) && TraceInv(s)
  }

  /** A resolver is pending exactly while the flow shows as intercepted, which is while the last thing done
      was to pause; its answer is kept until the handler wakes. */
  ghost predicate PauseInv(s: State) {
    (s.intercepted <==> s.resolver) && (s.resolver <==> LastIs(s.trace, Pause)) &&
    (s.resolver ==> Held(s.pc) && s.answer.None?) &&
    (Held(s.pc) && !s.resolver ==> s.answer.Some? && LastIs(s.trace, Answer(s.answer.value))) &&
    (!Held(s.pc) ==> s.answer.None?) &&
    (LastIs(s.trace, Answer(Killed)) ==> s.answer == Some(Killed))
  }

  ghost predicate HookInv(s: State) {
    if s.pc.Done? then Ordered(HooksOf(s.trace))
    else if s.pc.ErrorHook? then
      exists k | 0 <= k <= 4 :: HooksOf(s.trace) == ORDER[..k] + [OnError]
    else HooksOf(s.trace) == ORDER[..Fired(s.pc)]
  }

  ghost predicate TraceInv(s: State) {
    (Early(s.pc) && s.answer != Some(Killed) ==> Quiet(s.trace)) &&
    (s.pc.Start? || s.pc.RequestHeadersHook? || s.pc.ReadingRequest? || s.pc.RequestHook? ==> Unruled(s.trace)) &&
    (s.pc.RequestHeld? ==> Asked(s.trace, s.pc.directive)) &&
    (s.pc.Delaying? ==> Passed(s.trace, s.pc.directive)) &&
    (!s.pc.Relaying? && !s.pc.ErrorHook? && !s.pc.Done? ==> Open(s.trace)) &&
    (s.pc.Relaying? ==> HeadSent(s.trace) && !Destroyed(s.trace)) &&
    (s.pc.ErrorHook? ==> !Destroyed(s.trace) && (HeadSent(s.trace) || Open(s.trace))) &&
    (s.pc.Done? ==> (HeadSent(s.trace) <==> !Destroyed(s.trace)))
  }

  lemma QuietIsOpen(trace: seq<Effect>)
    ensures Quiet(trace) ==> Open(trace)
    ensures Open(trace) ==> !HeadSent(trace) && !Destroyed(trace)
  {}

  predicate IsOpen(e: Effect) {
    !IsHead(e) && !e.Destroy? && !e.Close? && !e.Data?
  }

  lemma Marks(trace: seq<Effect>, e: Effect)
    ensures Quiet(trace + [e]) <==> Quiet(trace) && IsQuiet(e)
    ensures Open(trace + [e]) <==> Open(trace) && IsOpen(e)
    ensures HeadSent(trace + [e]) <==> HeadSent(trace) || IsHead(e)
    ensures Destroyed(trace + [e]) <==> Destroyed(trace) || e.Destroy?
    ensures Unruled(trace + [e]) <==> Unruled(trace) && !e.Ruled?
  {
    var t := trace + [e];
    assert t[|trace|] == e;
    assert forall i | 0 <= i < |trace| :: t[i] == trace[i];
  }

  lemma AskedGrows(trace: seq<Effect>, e: Effect, d: Directive)
    ensures Asked(trace, d) ==> Asked(trace + [e], d)
    ensures e.Ruled? && e.directive == d ==> Asked(trace + [e], d) && (!e.held ==> Passed(trace + [e], d))
    ensures Asked(trace, d) && e == Answer(Resumed) ==> Passed(trace + [e], d)
  {
    var t := trace + [e];
    assert t[|trace|] == e;
    if Asked(trace, d) {
      var i :| 0 <= i < |trace| && trace[i].Ruled? && trace[i].directive == d;
      assert t[i] == trace[i];
    }
  }

  lemma AskedResumed(trace: seq<Effect>, d: Directive)
    requires Asked(trace, d) && LastIs(trace, Answer(Resumed))
    ensures Passed(trace, d)
  {
    var i :| 0 <= i < |trace| && trace[i].Ruled? && trace[i].directive == d;
    assert i < |trace| - 1 && trace[|trace| - 1] == Answer(Resumed);
  }

  /** One more effect. */
  lemma Append(trace: seq<Effect>, e: Effect)
    requires Lawful(trace) && May(trace, e)
    ensures Lawful(trace + [e])
    ensures HooksOf(trace + [e]) == if e.Hook? then HooksOf(trace) + [e.name] else HooksOf(trace)
    ensures forall x :: LastIs(trace + [e], x) <==> x == e
    ensures Quiet(trace + [e]) <==> Quiet(trace) && IsQuiet(e)
    ensures Open(trace + [e]) <==> Open(trace) && IsOpen(e)
    ensures HeadSent(trace + [e]) <==> HeadSent(trace) || IsHead(e)
    ensures Destroyed(trace + [e]) <==> Destroyed(trace) || e.Destroy?
    ensures Unruled(trace + [e]) <==> Unruled(trace) && !e.Ruled?
    ensures Quiet(trace) ==> Open(trace)
    ensures Open(trace) ==> !HeadSent(trace) && !Destroyed(trace)
  {
    hide Lawful, May, HooksOf, Quiet, Open, HeadSent, Destroyed, Unruled, Asked, Passed, Granted, Refused;
    LawfulSnoc(trace, e);
    HooksSnoc(trace, e);
    Marks(trace, e);
    QuietIsOpen(trace);
  }

  /** The handler is running, past the k-th hook. */
  ghost predicate Running(s: State, k: nat) {
    Lawful(s.trace) && k <= 4 && HooksOf(s.trace) == ORDER[..k] && !s.resolver && !s.intercepted && s.answer.None? &&
    !LastIs(s.trace, Pause)
  }

  lemma RaiseKeeps(w: World, s: State, k: nat)
    requires Running(s, k) && !Destroyed(s.trace) && (HeadSent(s.trace) || Open(s.trace))
    ensures Inv(Raise(w, s))
  {
    hide Lawful, HooksOf, Quiet, Open, HeadSent, Destroyed, Unruled, Asked, Passed, Granted, Refused;
    Append(s.trace, Hook(OnError));
  }

  lemma SynthesizeKeeps(s: State, v: View)
    requires Running(s, 2) && Quiet(s.trace) && Granted(s.trace, true)
    ensures Inv(Emit(Emit(s, Synthesize), Hook(OnResponseHeaders)).(pc := MockHeadersHook, view := v))
  {
    hide Lawful, HooksOf, Quiet, Open, HeadSent, Destroyed, Unruled, Asked, Passed, Granted, Refused;
    QuietIsOpen(s.trace);
    QuietLast(s.trace);
    Append(s.trace, Synthesize);
    Append(s.trace + [Synthesize], Hook(OnResponseHeaders));
    assert ORDER[..2] + [OnResponseHeaders] == ORDER[..3];
  }

  lemma DecideKeeps(s: State, d: Directive)
    requires Running(s, 2) && Quiet(s.trace) && Passed(s.trace, d)
    ensures Inv(Decide(s, d))
  {
    hide Lawful, HooksOf, Quiet, Open, HeadSent, Destroyed, Unruled, Asked, Passed, Granted, Refused;
    Verdict(s.trace, d);
    QuietIsOpen(s.trace);
    QuietLast(s.trace);
    if d.block {
      Append(s.trace, Destroy);
    } else if d.mock.Some? {
      SynthesizeKeeps(s, Decide(s, d).view);
    } else {
      Append(s.trace, Contact(s.view.request));
    }
  }

  lemma Verdict(trace: seq<Effect>, d: Directive)
    requires Passed(trace, d)
    ensures if d.block then Refused(trace) else Granted(trace, d.mock.Some?)
  {
    hide Passed;
  }

  lemma QuietLast(trace: seq<Effect>)
    ensures Quiet(trace) ==> !LastIs(trace, Answer(Killed))
  {}

  lemma HoldKeeps(w: World, s: State, pc: Pc)
    requires Running(s, Fired(pc)) && Held(pc) && Open(s.trace) && !LastIs(s.trace, Answer(Killed))
    requires pc.RequestHeld? ==> Quiet(s.trace) && Asked(s.trace, pc.directive)
    ensures Inv(Hold(w, s, pc))
  {
    hide Lawful, HooksOf, Quiet, Open, HeadSent, Destroyed, Unruled, Asked, Passed, Granted, Refused;
    QuietIsOpen(s.trace);
    if w.updateThrows {
      RaiseKeeps(w, s, Fired(pc));
    } else {
      Append(s.trace, Pause);
      if pc.RequestHeld? {
        AskedGrows(s.trace, Pause, pc.directive);
      }
    }
  }

  lemma WriteKeeps(w: World, s: State, status: int, sent: Sent)
    requires Running(s, 4) && Open(s.trace) && !LastIs(s.trace, Answer(Killed))
    ensures Inv(Write(w, s, status, sent))
  {
    hide Lawful, HooksOf, Quiet, Open, HeadSent, Destroyed, Unruled, Asked, Passed, Granted, Refused, BoundFlow;
    QuietIsOpen(s.trace);
    if !w.accepts(status, sent.headers) {
      RaiseKeeps(w, s.(placed := w.keeps(status, sent.headers)), 4);
    } else {
      Append(s.trace, Reply(status, sent));
      if w.updateThrows {
        RaiseKeeps(w, Emit(s, Reply(status, sent)).(view := BoundFlow(s.view, s.max), truncated := TooLong(s)), 4);
      }
    }
  }

  lemma ProceedKeeps(s: State, d: Directive)
    requires Running(s, 2) && Quiet(s.trace) && Passed(s.trace, d)
    ensures Inv(Proceed(s, d))
  {
    hide Lawful, HooksOf, Quiet, Open, HeadSent, Destroyed, Unruled, Asked, Passed, Granted, Refused, Decide;
    QuietIsOpen(s.trace);
    QuietLast(s.trace);
    DecideKeeps(s, d);
  }

  lemma RelayKeeps(w: World, s: State, raw: seq<byte>, decoded: seq<byte>)
    requires Running(s, 4) && Open(s.trace) && !LastIs(s.trace, Answer(Killed)) && s.view.response.Some?
    ensures Inv(Relay(w, s, raw, decoded))
  {
    hide Lawful, HooksOf, Quiet, Open, HeadSent, Destroyed, Unruled, Asked, Passed, Granted, Refused, Write, Relayed;
    var r := s.view.response.value;
    var modified := r.body.Some? && r.body.value != decoded;
    var t := if modified then s.(view := s.view.(response := Some(r.(headers := HDelete(r.headers, CE))))) else s;
    WriteKeeps(w, t, Orr(r.statusCode, 200), Relayed(r.headers, r.body, raw, decoded));
  }

  lemma HeadedKeeps(w: World, s: State)
    requires Running(s, 3) && Open(s.trace) && s.pc.ResponseHeadersHook? && s.view.response.Some?
    requires !LastIs(s.trace, Answer(Killed))
    ensures Inv(Headed(w, s))
  {
    hide Lawful, HooksOf, Quiet, Open, HeadSent, Destroyed, Unruled, Asked, Passed, Granted, Refused, CanStream;
    hide Responded, StreamHead;
    QuietIsOpen(s.trace);
    var r := s.view.response.value;
    if MayStream(w, s.view) {
      var v := Responded(w.env, s.view, w.rules);
      RespondedSome(w.env, s.view, w.rules);
      var status := Orr(v.response.value.statusCode, 200);
      var headers := StreamHead(v.response.value.headers);
      if !w.accepts(status, headers) {
        RaiseKeeps(w, s.(view := v, placed := w.keeps(status, headers)), 3);
      } else {
        Append(s.trace, StreamStart(status, headers));
      }
    }
  }

  /** Past the upstream's head or a synthesized one there is a response. */
  predicate HasResponse(s: State) {
    (s.pc.MockHeadersHook? || s.pc.MockResponseHook? || s.pc.ResponseHeadersHook? || s.pc.Relaying? ||
     s.pc.ReadingResponse? || s.pc.ResponseHook? || s.pc.ResponseHeld?)
    ==> s.view.response.Some?
  }

  ghost predicate Good(s: State) {
    Inv(s) && HasResponse(s)
  }

  lemma ResponseKept(w: World, s: State, e: Event)
    requires HasResponse(s)
    ensures HasResponse(Next(w, s, e))
  {
    hide Requested, Responded, WriteResponse, Relayed, HeadSent, CanStream, StreamHead, BoundFlow, Decoded;
    hide DecodeBody, IsDecodable;
    RespondedSome(w.env, s.view, w.rules);
    match e
    case Hooked(v) => HookKeepsResponse(w, s, v);
    case Body(bytes) => BodyKeepsResponse(w, s, bytes);
    case _ =>
  }

  /** Writing a response is the last thing but for errors. */
  lemma RelayEnds(w: World, s: State, raw: seq<byte>, decoded: seq<byte>)
    requires s.view.response.Some?
    ensures var n := Relay(w, s, raw, decoded); n.pc.Done? || n.pc.ErrorHook?
  {
    hide BoundFlow, TooLong, Relayed, HDelete;
  }

  lemma MockEnds(w: World, s: State)
    requires s.view.response.Some?
    ensures var n := WriteMock(w, s); n.pc.Done? || n.pc.ErrorHook?
  {
    hide BoundFlow, TooLong, WriteResponse;
  }

  lemma ProceedResponds(s: State, d: Directive)
    ensures HasResponse(Proceed(s, d))
  {}

  lemma HeadedResponds(w: World, s: State)
    requires s.pc.ResponseHeadersHook? && s.view.response.Some?
    ensures HasResponse(Headed(w, s))
  {
    hide Responded, CanStream, StreamHead;
    RespondedSome(w.env, s.view, w.rules);
  }

  lemma HookKeepsResponse(w: World, s: State, v: View)
    requires HasResponse(s)
    ensures HasResponse(Next(w, s, Hooked(v)))
  {
    hide Requested, Responded, HeadSent, Relay, WriteMock, Proceed, Headed;
    var t := Adopt(s, v);
    match s.pc
    case RequestHook =>
      var (u, d) := Requested(w.env, t.view, w.rules);
      ProceedResponds(Emit(t.(view := u), Ruled(d, w.breakpoint(u))), d);
    case MockHeadersHook => RespondedSome(w.env, t.view, w.rules);
    case MockResponseHook => MockEnds(w, t);
    case ResponseHeadersHook => HeadedResponds(w, t);
    case ResponseHook(raw, decoded) => RelayEnds(w, t, raw, decoded);
    case _ =>
  }

  lemma BodyKeepsResponse(w: World, s: State, bytes: seq<byte>)
    requires HasResponse(s)
    ensures HasResponse(Next(w, s, Body(bytes)))
  {
    hide Responded, Decoded, DecodeBody, IsDecodable;
    if s.pc.ReadingResponse? {
      var decoded := Decoded(w.codec, bytes, EncodingOf(s.view.response.value.headers));
      RespondedSome(w.env, WithBody(s.view, Some(decoded)), w.rules);
    }
  }

  lemma WokenKeeps(w: World, s: State)
    requires Good(s)
    ensures Inv(Resumption(w, s))
  {
    hide Lawful, HooksOf, Quiet, Open, HeadSent, Destroyed, Unruled, Asked, Passed, Granted, Refused, Proceed, Relay;
    QuietIsOpen(s.trace);
    if s.answer.Some? {
      var t := s.(answer := None);
      if w.updateThrows {
        RaiseKeeps(w, t, Fired(s.pc));
      } else if s.answer.value.Killed? {
        Append(s.trace, Destroy);
      } else if s.pc.RequestHeld? {
        AskedResumed(s.trace, s.pc.directive);
        ProceedKeeps(t, s.pc.directive);
      } else {
        RelayKeeps(w, t, s.pc.raw, s.pc.decoded);
      }
    }
  }

  lemma AnsweredKeeps(s: State, a: Action)
    requires Inv(s)
    ensures Inv(Answered(s, a))
  {
    hide Lawful, HooksOf, Quiet, Open, HeadSent, Destroyed, Unruled, Asked, Passed, Granted, Refused;
    QuietIsOpen(s.trace);
    if s.resolver {
      Append(s.trace, Answer(a));
      if s.pc.RequestHeld? {
        AskedGrows(s.trace, Answer(a), s.pc.directive);
      }
    }
  }

  lemma ErrorHookKeeps(w: World, s: State)
    requires Inv(s) && s.pc.ErrorHook?
    ensures Inv(AfterHook(w, s))
  {
    hide Lawful, Quiet, Open, HeadSent, Destroyed, Unruled, Asked, Passed, Granted, Refused, HooksOf, Ordered;
    QuietIsOpen(s.trace);
    InOrder(s);
    var k :| 0 <= k <= 4 && HooksOf(s.trace) == ORDER[..k] + [OnError];
    Append(s.trace, if HeadSent(s.trace) then Close else Notice(502, Complaint(s)));
  }

  lemma AfterHookKeeps(w: World, s: State)
    requires Good(s) && RunsHook(s.pc)
    ensures Inv(AfterHook(w, s))
  {
    hide Lawful, HooksOf, Quiet, Open, HeadSent, Destroyed, Unruled, Asked, Passed, Granted, Refused, Proceed;
    hide Relay, Hold, Requested, Responded, Headed, Write, WriteResponse;
    QuietIsOpen(s.trace);
    QuietLast(s.trace);
    match s.pc
    case RequestHeadersHook =>
    case RequestHook =>
      var (v, d) := Requested(w.env, s.view, w.rules);
      var e := Ruled(d, w.breakpoint(v));
      var t := Emit(s.(view := v), e);
      Append(s.trace, e);
      AskedGrows(s.trace, e, d);
      if w.breakpoint(v) {
        HoldKeeps(w, t, RequestHeld(d));
      } else {
        ProceedKeeps(t, d);
      }
    case MockHeadersHook =>
      Append(s.trace, Hook(OnResponse));
      assert ORDER[..3] + [OnResponse] == ORDER[..4];
    case MockResponseHook =>
      var r := s.view.response.value;
      WriteKeeps(w, s, Orr(r.statusCode, 200), WriteResponse(r.headers, OrEmpty(r.body)));
    case ResponseHeadersHook => HeadedKeeps(w, s);
    case ResponseHook(raw, decoded) =>
      if w.responseBreakpoint(s.view) {
        HoldKeeps(w, s, ResponseHeld(raw, decoded));
      } else {
        RelayKeeps(w, s, raw, decoded);
      }
    case ErrorHook => ErrorHookKeeps(w, s);
  }

  lemma BodyKeeps(w: World, s: State, bytes: seq<byte>)
    requires Good(s)
    ensures Inv(Next(w, s, Body(bytes)))
  {
    hide Lawful, HooksOf, Quiet, Open, HeadSent, Destroyed, Unruled, Asked, Passed, Granted, Refused, Responded;
    hide WithRequestBody, Decoded;
    QuietIsOpen(s.trace);
    QuietLast(s.trace);
    if s.pc.ReadingRequest? {
      Append(s.trace, Hook(OnRequest));
      assert ORDER[..1] + [OnRequest] == ORDER[..2];
    } else if s.pc.ReadingResponse? {
      Append(s.trace, Hook(OnResponse));
      assert ORDER[..3] + [OnResponse] == ORDER[..4];
    }
  }

  lemma UpstreamKeeps(w: World, s: State, head: Response)
    requires Good(s)
    ensures Inv(Next(w, s, Upstream(head)))
  {
    hide Lawful, HooksOf, Quiet, Open, HeadSent, Destroyed, Unruled, Asked, Passed, Granted, Refused;
    QuietIsOpen(s.trace);
    if s.pc.Contacting? {
      Append(s.trace, Hook(OnResponseHeaders));
      assert ORDER[..2] + [OnResponseHeaders] == ORDER[..3];
    }
  }

  lemma StreamKeeps(w: World, s: State, e: Event)
    requires Good(s) && (e.Chunk? || e.Ended? || e.Failed?)
    ensures Inv(Next(w, s, e))
  {
    hide Lawful, HooksOf, Quiet, Open, HeadSent, Destroyed, Unruled, Asked, Passed, Granted, Refused;
    QuietIsOpen(s.trace);
    if s.pc.Relaying? {
      Append(s.trace, if e.Chunk? then Data(e.bytes) else Close);
      assert ORDER[..3] <= ORDER;
    } else if e.Failed? && (s.pc.ReadingRequest? || s.pc.Contacting? || s.pc.ReadingResponse?) {
      RaiseKeeps(w, s, Fired(s.pc));
    }
  }

  /** Every event keeps it. */
  lemma NextKeeps(w: World, s: State, e: Event)
    requires Good(s)
    ensures Good(Next(w, s, e))
  {
    hide Lawful, HooksOf, Quiet, Open, HeadSent, Destroyed, Unruled, Asked, Passed, Granted, Refused;
    hide Resumption, AfterHook, Decide, HasResponse, Answered;
    ResponseKept(w, s, e);
    match e
    case Begin(target) => BeginKeeps(w, s, target);
    case Hooked(v) =>
      if RunsHook(s.pc) {
        AdoptKeeps(s, v);
        AfterHookKeeps(w, Adopt(s, v));
      }
    case Elapsed =>
      QuietIsOpen(s.trace);
      if s.pc.Delaying? {
        DecideKeeps(s, s.pc.directive);
      }
    case Woken => WokenKeeps(w, s);
    case Resume => AnsweredKeeps(s, Resumed);
    case Kill => AnsweredKeeps(s, Killed);
    case Edit(v) => AdoptKeeps(s, v);
    case Body(bytes) => BodyKeeps(w, s, bytes);
    case Upstream(head) => UpstreamKeeps(w, s, head);
    case _ => StreamKeeps(w, s, e);
  }

  lemma AdoptKeeps(s: State, v: View)
    requires Good(s)
    ensures Good(Adopt(s, v))
  {
    hide Lawful, HooksOf, Quiet, Open, HeadSent, Destroyed, Unruled, Asked, Passed, Granted, Refused;
  }

  lemma BeginKeeps(w: World, s: State, target: Option<Request>)
    requires Good(s)
    ensures Inv(Next(w, s, Begin(target)))
  {
    hide Lawful, HooksOf, Quiet, Open, HeadSent, Destroyed, Unruled, Asked, Passed, Granted, Refused;
    QuietIsOpen(s.trace);
    QuietLast(s.trace);
    if s.pc.Start? {
      if target.Some? {
        Append(s.trace, Hook(OnRequestHeaders));
        assert ORDER[..0] + [OnRequestHeaders] == ORDER[..1];
      } else {
        Append(s.trace, Notice(400, Sent(map[], BAD_TARGET)));
      }
    }
  }

  lemma {:induction false} RunKeeps(s: State, moments: seq<Moment>)
    requires Good(s)
    ensures Good(Run(s, moments))
    decreases |moments|
  {
    hide Good, Next;
    if moments != [] {
      NextKeeps(moments[0].world, s, moments[0].event);
      RunKeeps(Next(moments[0].world, s, moments[0].event), moments[1..]);
    }
  }

  lemma FreshIsGood(v: View, max: nat)
    ensures Good(Fresh(v, max))
  {
    assert HooksOf([]) == [] == ORDER[..0];
  }

  /** Every run of the handler, whatever happens in whatever order, with rules, breakpoints and the flow itself
      changing on the way: the rules are asked at most once; the upstream is contacted, or a response made up, at
      most once, as the rules asked, after a matching breakpoint was resumed, and with nothing before it but the
      request hooks and pauses that were resumed; the connection is destroyed only on kill or block; at most one
      response head, and none on a destroyed connection; the hooks in order, the error hook last; every pause
      followed by its one answer before anything else is done; and at the end the client was either answered or
      cut off, not both and not neither. */
  lemma EveryRunIsLawful(v: View, max: nat, moments: seq<Moment>)
    ensures var t := Run(Fresh(v, max), moments).trace;
            (forall i, j | 0 <= i < j < |t| :: t[j].Contact? || t[j].Synthesize? ==> IsQuiet(t[i])) &&
            (forall j | 0 <= j < |t| :: t[j].Contact? ==> Granted(t[..j], false)) &&
            (forall j | 0 <= j < |t| :: t[j].Synthesize? ==> Granted(t[..j], true)) &&
            (forall j | 0 <= j < |t| :: t[j].Destroy? ==> LastIs(t[..j], Answer(Killed)) || Refused(t[..j])) &&
            (forall i, j | 0 <= i < j < |t| :: !(t[i].Ruled? && t[j].Ruled?)) &&
            (forall i, j | 0 <= i < j < |t| :: IsHead(t[j]) || t[j].Destroy? ==> !IsHead(t[i]) && !t[i].Destroy?) &&
            (forall i | 0 < i < |t| :: t[i].Answer? <==> t[i - 1] == Pause) &&
            (forall i | 0 < i < |t| :: t[i - 1] == Answer(Killed) ==> t[i].Destroy? || t[i] == Hook(OnError))
    ensures var s := Run(Fresh(v, max), moments);
            Ordered(HooksOf(s.trace)) &&
            (s.intercepted <==> s.resolver) && (s.resolver <==> LastIs(s.trace, Pause)) &&
            (s.pc.Done? ==> (HeadSent(s.trace) <==> !exists i | 0 <= i < |s.trace| :: s.trace[i].Destroy?))
  {
    hide HooksOf, HeadSent, Run, Granted, Refused;
    FreshIsGood(v, max);
    RunKeeps(Fresh(v, max), moments);
    var s := Run(Fresh(v, max), moments);
    Unfolded(s.trace);
    InOrder(s);
  }

  lemma PrefixOrdered(hooks: seq<HookName>, k: nat)
    requires k <= 4 && (hooks == ORDER[..k] || hooks == ORDER[..k] + [OnError])
    ensures Ordered(hooks)
  {
    var first := ORDER[..k];
    assert first <= ORDER;
    assert (first + [OnError])[..k] == first;
  }

  lemma InOrder(s: State)
    requires HookInv(s)
    ensures Ordered(HooksOf(s.trace))
  {
    hide HooksOf, Ordered;
    if s.pc.ErrorHook? {
      var k :| 0 <= k <= 4 && HooksOf(s.trace) == ORDER[..k] + [OnError];
      PrefixOrdered(HooksOf(s.trace), k);
    } else if !s.pc.Done? {
      PrefixOrdered(HooksOf(s.trace), Fired(s.pc));
    }
  }

  lemma Unfolded(t: seq<Effect>)
    requires Lawful(t)
    ensures forall i, j | 0 <= i < j < |t| :: t[j].Contact? || t[j].Synthesize? ==> IsQuiet(t[i])
    ensures forall j | 0 <= j < |t| :: t[j].Contact? ==> Granted(t[..j], false)
    ensures forall j | 0 <= j < |t| :: t[j].Synthesize? ==> Granted(t[..j], true)
    ensures forall j | 0 <= j < |t| :: t[j].Destroy? ==> LastIs(t[..j], Answer(Killed)) || Refused(t[..j])
    ensures forall i, j | 0 <= i < j < |t| :: !(t[i].Ruled? && t[j].Ruled?)
    ensures forall i, j | 0 <= i < j < |t| :: IsHead(t[j]) || t[j].Destroy? ==> !IsHead(t[i]) && !t[i].Destroy?
    ensures forall i | 0 < i < |t| :: t[i].Answer? <==> t[i - 1] == Pause
    ensures forall i | 0 < i < |t| :: t[i - 1] == Answer(Killed) ==> t[i].Destroy? || t[i] == Hook(OnError)
  {
    hide Granted, Refused;
    forall j | 0 <= j < |t|
      ensures t[j].Contact? ==> Granted(t[..j], false)
      ensures t[j].Synthesize? ==> Granted(t[..j], true)
      ensures t[j].Destroy? ==> LastIs(t[..j], Answer(Killed)) || Refused(t[..j])
    {
      assert May(t[..j], t[j]);
    }
    forall i, j | 0 <= i < j < |t|
      ensures t[j].Contact? || t[j].Synthesize? ==> IsQuiet(t[i])
      ensures !(t[i].Ruled? && t[j].Ruled?)
      ensures IsHead(t[j]) || t[j].Destroy? ==> !IsHead(t[i]) && !t[i].Destroy?
    {
      assert May(t[..j], t[j]) && t[..j][i] == t[i];
    }
    forall i | 0 < i < |t|
      ensures t[i].Answer? <==> t[i - 1] == Pause
      ensures t[i - 1] == Answer(Killed) ==> t[i].Destroy? || t[i] == Hook(OnError)
    {
      assert May(t[..i], t[i]) && t[..i][i - 1] == t[i - 1];
    }
  }

  /** A pause is answered by the first resume or kill after it, whatever else happens meanwhile. */
  lemma {:induction false} FirstAnswerCounts(s: State, moments: seq<Moment>, k: nat)
    requires Good(s) && s.resolver && k < |moments|
    requires moments[k].event.Resume? || moments[k].event.Kill?
    requires forall i | 0 <= i < k :: !moments[i].event.Resume? && !moments[i].event.Kill?
    ensures var t := Run(s, moments[..k]); t.resolver && t.intercepted && t.pc == s.pc && t.trace == s.trace
    ensures var t := Run(s, moments[..k + 1]);
            t.answer == Some(if moments[k].event.Kill? then Killed else Resumed) && !t.resolver && !t.intercepted &&
            t.trace == s.trace + [Answer(t.answer.value)]
    decreases k
  {
    hide Lawful, HooksOf, Quiet, Open, HeadSent, Destroyed, Unruled, Asked, Passed, Granted, Refused;
    var n := Next(moments[0].world, s, moments[0].event);
    assert moments[..k + 1][1..] == moments[1..][..k];
    if k == 0 {
      assert moments[..1][1..] == [];
    } else {
      assert moments[..k][1..] == moments[1..][..k - 1];
      HeldStays(moments[0].world, s, moments[0].event);
      NextKeeps(moments[0].world, s, moments[0].event);
      FirstAnswerCounts(n, moments[1..], k - 1);
    }
  }

  lemma HeldStays(w: World, s: State, e: Event)
    requires PauseInv(s) && s.resolver && !e.Resume? && !e.Kill?
    ensures var n := Next(w, s, e); n == s.(view := n.view)
  {}

  /** When the buffered path ends in a reply and the encoding is still the one the body was decoded by, what
      the client reads is what the flow showed when the reply was written, and what it keeps is that body cut to
      the maximum. */
  lemma ReplyShowsRecord(w: World, s: State, raw: seq<byte>, before: Fields)
    requires s.view.response.Some? && s.view.response.value.body.Some? && !w.updateThrows
    requires EncodingOf(s.view.response.value.headers) == EncodingOf(before)
    ensures var r := s.view.response.value;
            var n := Relay(w, s, raw, Decoded(w.codec, raw, EncodingOf(before)));
            n.pc.Done? && n.trace != s.trace && n.trace[|n.trace| - 1].Reply? ==>
              var sent := n.trace[|n.trace| - 1].sent;
              ValuesOut(sent.headers, CL) == [Decimal(|sent.body|)] &&
              (r.body.value != Decoded(w.codec, raw, EncodingOf(before)) || OneSpelling(r.headers, CE) ==>
                 DecodeBody(w.codec, sent.body, SentEncoding(sent)) == r.body.value) &&
              n.view.response.Some? && n.view.response.value.body == Some(BoundForStorage(r.body.value, s.max).body)
  {
    hide DecodeBody, Decoded, WriteResponse, EncodingOf, OneSpelling, SentEncoding, Decimal, ValuesOut, Relayed;
    hide HDelete;
    var r := s.view.response.value;
    ClientSeesRecorded(w.codec, before, r.headers, r.body.value, raw);
  }

  // ---- the two ways through the machine ----

  /** Collecting, and hooks that leave the flow alone: the machine ends as the buffered path does. */
  lemma MachineBuffers(w: World, s: State, raw: seq<byte>)
    requires s.pc.ReadingResponse? && s.view.response.Some? && !w.updateThrows
    ensures var t := Next(w, s, Body(raw));
            var u := Next(w, t, Hooked(t.view));
            var o := Buffered(w.env, w.codec, w.rules, w.responseBreakpoint, s.view, raw, s.max);
            match o
            case Held => u.pc.ResponseHeld? && u.trace == t.trace + [Pause]
            case Delivered(status, headers, body, kept, truncated) =>
              w.accepts(status, headers) ==>
                u.pc.Done? && u.trace == t.trace + [Reply(status, Sent(headers, body))] && u.view == kept &&
                (kept.response.Some? && kept.response.value.body.Some? ==> u.truncated == truncated)
  {
    hide Responded, Decoded, WriteResponse, HDelete, EncodingOf;
    var decoded := Decoded(w.codec, raw, EncodingOf(s.view.response.value.headers));
    RespondedSome(w.env, WithBody(s.view, Some(decoded)), w.rules);
    var t := Next(w, s, Body(raw));
    assert Adopt(t, t.view) == t;
  }

  /** A synthesized response, with hooks that leave the flow alone: the response rules run on it, and it goes out
      with its own headers and body. */
  lemma MachineMocks(w: World, s: State, d: Directive)
    requires !d.block && d.mock.Some? && !w.updateThrows
    ensures var m := d.mock.value;
            var t := Decide(s, d);
            var u := Next(w, t, Hooked(t.view));
            var x := Next(w, u, Hooked(u.view));
            var v := Responded(w.env, s.view.(response := Some(Response(m.status, m.headers, Some(m.body)))), w.rules);
            v.response.Some? &&
            var r := v.response.value;
            var sent := WriteResponse(r.headers, OrEmpty(r.body));
            w.accepts(Orr(r.statusCode, 200), sent.headers) ==>
              x.pc.Done? && x.view == BoundFlow(v, s.max) &&
              x.trace == s.trace + [Synthesize, Hook(OnResponseHeaders), Hook(OnResponse),
                                    Reply(Orr(r.statusCode, 200), sent)]
  {
    hide Responded, WriteResponse, BoundFlow;
    var m := d.mock.value;
    RespondedSome(w.env, s.view.(response := Some(Response(m.status, m.headers, Some(m.body)))), w.rules);
    var t := Decide(s, d);
    assert Adopt(t, t.view) == t;
    var u := Next(w, t, Hooked(t.view));
    assert Adopt(u, u.view) == u;
  }

  /** The request body as recorded is what its sender meant, and reads the same by the encoding header that is left
      on the request for the upstream; no other header changes. */
  lemma RequestBodyCoherent(codec: Codec, q: Request, raw: seq<byte>, name: string)
    ensures var r := WithRequestBody(codec, q, raw);
            r.body == Some(DecodeBody(codec, raw, EncodingOf(q.headers))) &&
            DecodeBody(codec, r.body.value, EncodingOf(r.headers)) == r.body.value &&
            (Lower(name) != Lower(CE) ==> HGet(r.headers, name) == HGet(q.headers, name))
  {
    hide DecodeBody, IsDecodable, HGet, HDelete, Lower;
    if IsDecodable(EncodingOf(q.headers)) {
      DeleteLaw(q.headers, CE, CE);
      DeleteLaw(q.headers, CE, name);
      PlainBody(codec, DecodeBody(codec, raw, EncodingOf(q.headers)));
    } else {
      NotDecodable(codec, raw, EncodingOf(q.headers));
    }
  }

  // ---- no request is left hanging ----

  /** How far a request is from its end. */
  function Rank(s: State): nat {
    match s.pc
    case Start => 15
    case RequestHeadersHook => 14
    case ReadingRequest => 13
    case RequestHook => 12
    case RequestHeld(_) => if s.resolver then 11 else 10
    case Delaying(_) => 9
    case MockHeadersHook => 8
    case Contacting => 8
    case MockResponseHook => 7
    case ResponseHeadersHook => 7
    case ReadingResponse => 6
    case ResponseHook(_, _) => 5
    case ResponseHeld(_, _) => if s.resolver then 4 else 3
    case Relaying => 2
    case ErrorHook => 1
    case Done => 0
  }

  /** An event the handler is waiting for. */
  function Awaited(s: State): Event {
    match s.pc
    case Start => Begin(Some(s.view.request))
    case ReadingRequest => Body([])
    case ReadingResponse => Body([])
    case RequestHeld(_) => if s.resolver then Resume else Woken
    case ResponseHeld(_, _) => if s.resolver then Resume else Woken
    case Delaying(_) => Elapsed
    case Contacting => Failed
    case Relaying => Ended
    case _ => Hooked(s.view)
  }

  lemma HookSteps(w: World, s: State)
    requires Good(s) && RunsHook(s.pc)
    ensures Rank(AfterHook(w, s)) < Rank(s)
  {
    hide Inv, Requested, Responded, CanStream, StreamHead, Relay, WriteMock, HeadSent;
    if s.pc.MockResponseHook? {
      MockEnds(w, s);
    } else if s.pc.ResponseHook? {
      RelayEnds(w, s, s.pc.raw, s.pc.decoded);
    }
  }

  /** Every event brings the end nearer or does nothing but edit the flow, except chunks of a streamed body. */
  lemma EveryStepAdvances(w: World, s: State, e: Event)
    requires Good(s)
    ensures var n := Next(w, s, e);
            Rank(n) < Rank(s) || n == s.(view := n.view) ||
            (s.pc.Relaying? && e.Chunk? && n == Emit(s, Data(e.bytes)).(tap := n.tap))
  {
    hide Lawful, HookInv, TraceInv, Responded, AfterHook, Resumption, Decoded, WithRequestBody, TapChunk;
    if e.Hooked? && RunsHook(s.pc) {
      AdoptKeeps(s, e.view);
      HookSteps(w, Adopt(s, e.view));
    } else if e.Woken? {
      WokenSteps(w, s);
    }
  }

  lemma WokenSteps(w: World, s: State)
    requires Good(s)
    ensures if s.answer.Some? then Rank(Resumption(w, s)) < Rank(s) else Resumption(w, s) == s
  {
    hide Lawful, HookInv, TraceInv, Relay;
    if s.pc.ResponseHeld? {
      RelayEnds(w, s.(answer := None), s.pc.raw, s.pc.decoded);
    }
  }

  lemma AwaitedAdvances(w: World, s: State)
    requires Good(s) && !s.pc.Done?
    ensures Rank(Next(w, s, Awaited(s))) < Rank(s)
  {
    hide Lawful, HooksOf, Quiet, Open, HeadSent, Destroyed, Unruled, Asked, Passed, Granted, Refused, Responded;
    hide AfterHook, Resumption, Decoded, WithRequestBody;
    if RunsHook(s.pc) {
      AdoptKeeps(s, s.view);
      HookSteps(w, Adopt(s, s.view));
    } else if Held(s.pc) && !s.resolver {
      WokenSteps(w, s);
    }
  }

  /** From every reachable state some few events lead to the end. */
  lemma {:induction false} CanFinish(w: World, s: State)
    requires Good(s)
    ensures exists moments: seq<Moment> | |moments| <= Rank(s) :: Run(s, moments).pc.Done?
    decreases Rank(s)
  {
    hide Good, Next, Awaited;
    if s.pc.Done? {
      assert Run(s, []).pc.Done?;
    } else {
      AwaitedAdvances(w, s);
      NextKeeps(w, s, Awaited(s));
      var n := Next(w, s, Awaited(s));
      CanFinish(w, n);
      var rest: seq<Moment> :| |rest| <= Rank(n) && Run(n, rest).pc.Done?;
      var moments := [Moment(w, Awaited(s))] + rest;
      assert moments[1..] == rest;
      assert Run(s, moments).pc.Done?;
    }
  }
}
