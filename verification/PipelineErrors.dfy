/** What a client is told by the catch block of handleRequest (src/core/request-handler.ts): a 502 whose head is
    written on the same response object that a refused head has left its headers on. */
module PipelineErrors {
  import opened Prelude
  import opened Headers
  import opened FlowModel
  import opened Encoding
  import opened Numbers
  import opened Rules
  import opened Streaming
  import opened Pipeline

  /** A response head is refused at most once: while the handler is at work none has been. */
  predicate Unplaced(s: State) {
    !s.pc.ErrorHook? && !s.pc.Done? ==> s.placed == map[]
  }

  lemma EmitKeepsPlaced(s: State, e: Effect)
    ensures Emit(s, e).placed == s.placed && Emit(s, e).trace == s.trace + [e] && Emit(s, e).error == s.error
    ensures Emit(s, e).view == s.view
  {}

  lemma DecidePlaced(s: State, d: Directive)
    ensures Decide(s, d).placed == s.placed && !Decide(s, d).pc.ErrorHook?
  {
    hide Emit;
    EmitKeepsPlaced(s, Destroy);
    EmitKeepsPlaced(s, Synthesize);
    EmitKeepsPlaced(Emit(s, Synthesize), Hook(OnResponseHeaders));
    EmitKeepsPlaced(s, Contact(s.view.request));
  }

  lemma ProceedPlaced(s: State, d: Directive)
    ensures Proceed(s, d).placed == s.placed && !Proceed(s, d).pc.ErrorHook?
  {
    hide Decide;
    DecidePlaced(s, d);
  }

  lemma HoldPlaced(w: World, s: State, pc: Pc)
    ensures Hold(w, s, pc).placed == s.placed
  {}

  // ---- which head was refused ----

  /** The same with a Node that takes every head. */
  function Willing(w: World): World {
    w.(accepts := (status, headers) => true)
  }

  /** The head that is handed to Node on the way from s to n. */
  function Attempt(s: State, n: State): Option<Effect> {
    if |n.trace| > |s.trace| && (n.trace[|s.trace|].Reply? || n.trace[|s.trace|].StreamStart?)
    then Some(n.trace[|s.trace|]) else None
  }

  /** A whole response announces its length. */
  predicate Announced(sent: Sent) {
    ValuesOut(sent.headers, CL) == [Decimal(|sent.body|)]
  }

  /** What lies about on the response object when an error is caught before any head is out: nothing, unless a head
      was handed over, which must then have been refused. */
  ghost predicate Explained(w: World, s: State, n: State, willing: State) {
    n.pc.ErrorHook? && !HeadSent(n.trace) ==>
      n.error == w.message &&
      match Attempt(s, willing)
      case None => n.placed == map[]
      case Some(Reply(status, sent)) => Announced(sent) && n.placed == w.keeps(status, sent.headers)
      case Some(e) => e.StreamStart? && n.placed == w.keeps(e.status, e.headers)
  }

  lemma RaiseExplained(w: World, s: State, n: State, willing: State)
    requires n == Raise(w, s.(view := n.view, answer := n.answer)) && s.placed == map[]
    requires willing.trace == n.trace
    ensures Explained(w, s, n, willing)
  {}

  lemma WriteExplained(w: World, s: State, status: int, sent: Sent)
    requires s.placed == map[] && Announced(sent)
    ensures Explained(w, s, Write(w, s, status, sent), Write(Willing(w), s, status, sent))
  {
    hide BoundFlow, TooLong, Announced;
    var n, a := Write(w, s, status, sent), Write(Willing(w), s, status, sent);
    assert a.trace[|s.trace|] == Reply(status, sent);
    if w.accepts(status, sent.headers) && n.pc.ErrorHook? {
      assert n.trace[|s.trace|] == Reply(status, sent);
    }
  }

  lemma RelayedAnnounced(fields: Fields, body: Option<seq<byte>>, raw: seq<byte>, decoded: seq<byte>)
    ensures Announced(Relayed(fields, body, raw, decoded))
    ensures Announced(WriteResponse(fields, raw))
  {
    hide WriteResponse, HDelete, Decimal;
    LengthWritten(fields, raw);
    if body.Some? {
      LengthWritten(HDelete(fields, CE), body.value);
    }
  }

  lemma RelayExplained(w: World, s: State, raw: seq<byte>, decoded: seq<byte>)
    requires s.placed == map[] && s.view.response.Some?
    ensures Explained(w, s, Relay(w, s, raw, decoded), Relay(Willing(w), s, raw, decoded))
  {
    hide Write, Relayed, HDelete, Explained, Announced;
    var r := s.view.response.value;
    var modified := r.body.Some? && r.body.value != decoded;
    var t := if modified then s.(view := s.view.(response := Some(r.(headers := HDelete(r.headers, CE))))) else s;
    RelayedAnnounced(r.headers, r.body, raw, decoded);
    WriteExplained(w, t, Orr(r.statusCode, 200), Relayed(r.headers, r.body, raw, decoded));
    SameStart(w, s, t, Relay(w, s, raw, decoded), Relay(Willing(w), s, raw, decoded));
  }

  /** Only the trace before the step matters. */
  lemma SameStart(w: World, s: State, t: State, n: State, willing: State)
    requires s.trace == t.trace && Explained(w, t, n, willing)
    ensures Explained(w, s, n, willing)
  {
    hide HeadSent, Announced;
  }

  lemma HeadedExplained(w: World, s: State)
    requires s.placed == map[] && s.view.response.Some? && s.pc.ResponseHeadersHook?
    ensures Explained(w, s, Headed(w, s), Headed(Willing(w), s))
  {
    hide Responded, StreamHead, CanStream, Announced, HeadSent;
    RespondedSome(w.env, s.view, w.rules);
    var v := Responded(w.env, s.view, w.rules);
    var status := Orr(v.response.value.statusCode, 200);
    var headers := StreamHead(v.response.value.headers);
    if MayStream(w, s.view) {
      var a := Headed(Willing(w), s);
      assert a.trace == s.trace + [StreamStart(status, headers)];
      assert a.trace[|s.trace|] == StreamStart(status, headers);
    }
  }

  lemma HeldExplained(w: World, s: State, pc: Pc)
    requires s.placed == map[] && Pipeline.Held(pc)
    ensures Explained(w, s, Hold(w, s, pc), Hold(Willing(w), s, pc))
  {
    hide Announced, HeadSent;
    var n, a := Hold(w, s, pc), Hold(Willing(w), s, pc);
    assert a.trace == n.trace;
    if w.updateThrows {
      assert n.trace[|s.trace|] == Hook(OnError);
    }
  }

  /** The same, with the verdict of the rules noted before it. */
  lemma RuledExplained(w: World, s: State)
    requires s.placed == map[] && s.pc.RequestHook?
    ensures Explained(w, s, AfterHook(w, s), AfterHook(Willing(w), s))
  {
    hide Announced, HeadSent, Requested, Proceed;
    var (v, d) := Requested(w.env, s.view, w.rules);
    var e := Ruled(d, w.breakpoint(v));
    var t := Emit(s.(view := v), e);
    var n, a := AfterHook(w, s), AfterHook(Willing(w), s);
    ProceedPlaced(t, d);
    if n.pc.ErrorHook? {
      assert a.trace == n.trace == t.trace + [Hook(OnError)];
      assert n.trace[|s.trace|] == e;
    }
  }

  lemma HookExplained(w: World, s: State)
    requires HasResponse(s) && s.placed == map[] && RunsHook(s.pc) && !s.pc.ErrorHook?
    ensures Explained(w, s, AfterHook(w, s), AfterHook(Willing(w), s))
  {
    hide Proceed, Hold, Relay, Write, Headed, Requested, Responded, WriteResponse, Announced, HeadSent;
    hide Attempt;
    match s.pc
    case RequestHeadersHook =>
    case RequestHook => RuledExplained(w, s);
    case MockHeadersHook =>
    case MockResponseHook =>
      var r := s.view.response.value;
      RelayedAnnounced(r.headers, None, OrEmpty(r.body), []);
      WriteExplained(w, s, Orr(r.statusCode, 200), WriteResponse(r.headers, OrEmpty(r.body)));
    case ResponseHeadersHook => HeadedExplained(w, s);
    case ResponseHook(raw, decoded) =>
      HeldExplained(w, s, ResponseHeld(raw, decoded));
      RelayExplained(w, s, raw, decoded);
  }

  lemma WokenExplained(w: World, s: State)
    requires Good(s) && s.placed == map[] && !s.pc.ErrorHook?
    ensures Explained(w, s, Resumption(w, s), Resumption(Willing(w), s))
  {
    hide Lawful, HookInv, TraceInv, Announced, HeadSent, Proceed, Relay, Explained;
    var t := s.(answer := None);
    var n, a := Resumption(w, s), Resumption(Willing(w), s);
    if s.answer.None? || (!w.updateThrows && (s.answer.value.Killed? || s.pc.RequestHeld?)) {
      if s.answer.Some? && s.pc.RequestHeld? {
        ProceedPlaced(t, s.pc.directive);
      }
      NoError(w, s, n, a);
    } else if w.updateThrows {
      NothingTried(w, s, n, a);
    } else {
      RelayExplained(w, t, s.pc.raw, s.pc.decoded);
      SameStart(w, s, t, n, a);
    }
  }

  lemma NoError(w: World, s: State, n: State, willing: State)
    requires !n.pc.ErrorHook?
    ensures Explained(w, s, n, willing)
  {}

  lemma NothingTried(w: World, s: State, n: State, willing: State)
    requires n.placed == map[] && n.error == w.message && willing.trace == s.trace + [Hook(OnError)]
    ensures Explained(w, s, n, willing)
  {
    assert willing.trace[|s.trace|] == Hook(OnError);
  }

  lemma StepExplained(w: World, s: State, e: Event)
    requires Good(s) && Unplaced(s) && !s.pc.ErrorHook? && !s.pc.Done?
    ensures Explained(w, s, Next(w, s, e), Next(Willing(w), s, e))
  {
    hide Inv, Explained, AfterHook, Resumption, Decide, Responded, WithRequestBody, Decoded, TapChunk;
    var n, a := Next(w, s, e), Next(Willing(w), s, e);
    if e.Hooked? && RunsHook(s.pc) {
      AdoptKeeps(s, e.view);
      var t := Adopt(s, e.view);
      HookExplained(w, t);
      SameStart(w, s, t, n, a);
    } else if e.Woken? {
      WokenExplained(w, s);
    } else if e.Failed? && n.pc.ErrorHook? {
      NothingTried(w, s, n, a);
    } else {
      if e.Elapsed? && s.pc.Delaying? {
        DecidePlaced(s, s.pc.directive);
      }
      NoError(w, s, n, a);
    }
  }

  // ---- nothing is left behind while the handler is at work ----

  lemma UnplacedKept(w: World, s: State, e: Event)
    requires Good(s) && Unplaced(s)
    ensures Unplaced(Next(w, s, e))
  {
    hide Inv, AfterHook, Resumption, Decide, Responded, WithRequestBody, Decoded, TapChunk;
    if e.Hooked? && RunsHook(s.pc) {
      AdoptKeeps(s, e.view);
      HookUnplaced(w, Adopt(s, e.view));
    } else if e.Woken? {
      WokenUnplaced(w, s);
    } else if e.Elapsed? && s.pc.Delaying? {
      DecidePlaced(s, s.pc.directive);
    }
  }

  lemma HookUnplaced(w: World, s: State)
    requires HasResponse(s) && Unplaced(s) && RunsHook(s.pc)
    ensures Unplaced(AfterHook(w, s))
  {
    hide Proceed, Hold, Relay, WriteMock, Requested, Responded, CanStream, StreamHead, HeadSent, Complaint;
    match s.pc
    case RequestHook =>
      var (v, d) := Requested(w.env, s.view, w.rules);
      var t := Emit(s.(view := v), Ruled(d, w.breakpoint(v)));
      HoldPlaced(w, t, RequestHeld(d));
      ProceedPlaced(t, d);
    case MockResponseHook => MockEnds(w, s);
    case ResponseHeadersHook => RespondedSome(w.env, s.view, w.rules);
    case ResponseHook(raw, decoded) =>
      HoldPlaced(w, s, ResponseHeld(raw, decoded));
      RelayEnds(w, s, raw, decoded);
    case _ =>
  }

  lemma WokenUnplaced(w: World, s: State)
    requires Good(s) && Unplaced(s)
    ensures Unplaced(Resumption(w, s))
  {
    hide Lawful, HookInv, TraceInv, Proceed, Relay;
    if s.answer.Some? {
      var t := s.(answer := None);
      if s.pc.RequestHeld? {
        ProceedPlaced(t, s.pc.directive);
      } else {
        RelayEnds(w, t, s.pc.raw, s.pc.decoded);
      }
    }
  }

  lemma {:induction false} RunUnplaced(s: State, moments: seq<Moment>)
    requires Good(s) && Unplaced(s)
    ensures Good(Run(s, moments)) && Unplaced(Run(s, moments))
    decreases |moments|
  {
    hide Good, Unplaced, Next;
    if moments != [] {
      var m := moments[0];
      UnplacedKept(m.world, s, m.event);
      NextKeeps(m.world, s, m.event);
      RunUnplaced(Next(m.world, s, m.event), moments[1..]);
    }
  }

  // ---- the length of the 502 ----

  /** The declared length, if there is one, is that of the body. */
  predicate Framed(c: Sent) {
    ValuesOut(c.headers, CL) == [] || ValuesOut(c.headers, CL) == [Decimal(|c.body|)]
  }

  /** In every run, when an error is caught before any head is out, the client gets the text of that error, and
      - when nothing was handed to Node no length is declared;
      - when the head of a whole response was refused with its headers set (as for a bad status), its length is
        declared, and that is right if and only if the refused body happens to be as long as the text;
      - when the head of a stream was refused, the length set from the upstream's is declared. */
  lemma NoticeLength(v: View, max: nat, moments: seq<Moment>, w: World, e: Event, later: World, left: View)
    requires var s := Run(Fresh(v, max), moments);
             var n := Next(w, s, e);
             !s.pc.ErrorHook? && n.pc.ErrorHook? && !HeadSent(n.trace)
    ensures var s := Run(Fresh(v, max), moments);
            var n := Next(w, s, e);
            var o := Next(later, n, Hooked(left));
            var c := Complaint(n);
            o.pc.Done? && o.trace == n.trace + [Notice(502, c)] &&
            c.body == Ascii("cnproxy upstream error: ") + w.message &&
            ValuesOut(c.headers, "content-type") == ["text/plain"] &&
            match Attempt(s, Next(Willing(w), s, e))
            case None => ValuesOut(c.headers, CL) == [] && Framed(c)
            case Some(Reply(status, sent)) =>
              w.keeps(status, sent.headers) == sent.headers ==>
                ValuesOut(c.headers, CL) == [Decimal(|sent.body|)] && (Framed(c) <==> |sent.body| == |c.body|)
            case Some(head) =>
              head.StreamStart? && ValuesOut(c.headers, CL) == ValuesOut(w.keeps(head.status, head.headers), CL)
  {
    hide Good, Run, Next, Complaint, Attempt, HeadSent;
    var a := Fresh(v, max);
    FreshIsGood(v, max);
    RunUnplaced(a, moments);
    var s := Run(a, moments);
    var n := Next(w, s, e);
    if s.pc.Done? {
      DoneStays(w, s, e);
      assert false;
    }
    StepExplained(w, s, e);
    ErrorAnswered(later, n, left);
    ComplaintRead(n);
    var tried := Attempt(s, Next(Willing(w), s, e));
    if tried.Some? && tried.value.Reply? {
      SameDecimal(|tried.value.sent.body|, |Complaint(n).body|);
    }
  }

  lemma DoneStays(w: World, s: State, e: Event)
    requires Good(s) && s.pc.Done?
    ensures Next(w, s, e) == s
  {
    hide Lawful, HookInv, TraceInv;
  }

  lemma ErrorAnswered(w: World, s: State, v: View)
    requires s.pc.ErrorHook? && !HeadSent(s.trace)
    ensures var o := Next(w, s, Hooked(v)); o.pc.Done? && o.trace == s.trace + [Notice(502, Complaint(s))]
  {
    hide HeadSent;
  }

  lemma ComplaintRead(s: State)
    ensures Complaint(s).body == Ascii("cnproxy upstream error: ") + s.error
    ensures ValuesOut(Complaint(s).headers, "content-type") == ["text/plain"]
    ensures ValuesOut(Complaint(s).headers, CL) == ValuesOut(s.placed, CL)
  {
    hide Ascii;
  }

  lemma SameDecimal(m: nat, n: nat)
    ensures Decimal(m) == Decimal(n) <==> m == n
  {
    InBaseReads(m, 10);
    InBaseReads(n, 10);
  }

  /** A rule that asks for the status 1000: the head of an empty response is refused, and the text that the client is
      sent instead declares the length 0. */
  lemma StaleLength(w: World, s: State, later: World, left: View)
    requires s.pc == ResponseHook([], []) && s.view.response.Some? && s.view.response.value.body == Some([])
    requires s.view.response.value.statusCode == 1000 && !w.responseBreakpoint(s.view) && !HeadSent(s.trace)
    requires forall status, headers :: w.accepts(status, headers) ==> 100 <= status <= 999
    requires forall status, headers :: w.keeps(status, headers) == headers
    ensures var n := Next(w, s, Hooked(s.view));
            var o := Next(later, n, Hooked(left));
            var c := Complaint(n);
            o.trace == s.trace + [Hook(OnError)] + [Notice(502, c)] &&
            ValuesOut(c.headers, CL) == ["0"] && c.body != [] && !Framed(c)
  {
    hide HeadSent, WriteResponse, HDelete, Ascii;
    var r := s.view.response.value;
    assert Adopt(s, s.view) == s;
    LengthWritten(r.headers, []);
    var n := Next(w, s, Hooked(s.view));
    HeadStays(s.trace);
    ErrorAnswered(later, n, left);
    ComplaintRead(n);
    SameDecimal(0, |Complaint(n).body|);
    assert Decimal(0) == "0";
  }

  lemma HeadStays(t: seq<Effect>)
    ensures HeadSent(t + [Hook(OnError)]) <==> HeadSent(t)
  {
    var u := t + [Hook(OnError)];
    assert u[|t|] == Hook(OnError);
    assert forall i | 0 <= i < |t| :: u[i] == t[i];
  }

  // ---- failures ----

  /** When the request body, the upstream or the response body fails, the error hook runs, and after it the client is
      answered with 502 and the text of the failure. */
  lemma FailureAnswered(v: View, max: nat, moments: seq<Moment>, w: World, later: World, left: View)
    requires var s := Run(Fresh(v, max), moments);
             s.pc.ReadingRequest? || s.pc.Contacting? || s.pc.ReadingResponse?
    ensures var s := Run(Fresh(v, max), moments);
            var n := Next(w, s, Failed);
            var o := Next(later, n, Hooked(left));
            n.pc.ErrorHook? && n.trace == s.trace + [Hook(OnError)] && o.pc.Done? &&
            exists c: Sent :: o.trace == s.trace + [Hook(OnError), Notice(502, c)] &&
                              c.body == Ascii("cnproxy upstream error: ") + w.message && ValuesOut(c.headers, CL) == []
  {
    hide Good, Run, HeadSent, Complaint;
    var s := Run(Fresh(v, max), moments);
    FreshIsGood(v, max);
    RunUnplaced(Fresh(v, max), moments);
    OpenAtWork(s);
    var n := Next(w, s, Failed);
    HeadStays(s.trace);
    ErrorAnswered(later, n, left);
    ComplaintRead(n);
    var c := Complaint(n);
    assert s.trace + [Hook(OnError)] + [Notice(502, c)] == s.trace + [Hook(OnError), Notice(502, c)];
  }

  lemma OpenAtWork(s: State)
    requires Good(s) && (s.pc.ReadingRequest? || s.pc.Contacting? || s.pc.ReadingResponse?)
    ensures !HeadSent(s.trace)
  {
    hide Lawful, HookInv, PauseInv, Quiet, Unruled, Asked, Passed;
    QuietIsOpen(s.trace);
  }

  /** When a listener of the store throws once the reply is written, the error hook runs, and after it the response is
      closed: the client gets the reply and nothing else. */
  lemma ListenerThrows(w: World, s: State, status: int, sent: Sent, later: World, left: View)
    requires w.accepts(status, sent.headers) && w.updateThrows
    ensures var n := Write(w, s, status, sent);
            var o := Next(later, n, Hooked(left));
            n.pc.ErrorHook? && n.trace == s.trace + [Reply(status, sent), Hook(OnError)] &&
            o.pc.Done? && o.trace == n.trace + [Close]
  {
    hide BoundFlow, TooLong, Complaint;
    var n := Write(w, s, status, sent);
    assert s.trace + [Reply(status, sent)] + [Hook(OnError)] == s.trace + [Reply(status, sent), Hook(OnError)];
    assert IsHead(n.trace[|s.trace|]);
  }

  /** A request whose target cannot be read is answered with 400 and a fixed text, and nothing else happens. */
  lemma BadTarget(w: World, v: View, max: nat)
    ensures var n := Next(w, Fresh(v, max), Begin(None));
            n.pc.Done? && n.trace == [Notice(400, Sent(map[], Ascii("cnproxy: bad request target")))]
  {
    hide Ascii;
  }
}
