/** How a run of handleRequest ends (src/core/request-handler.ts): what may follow a response head, what is left of
    the bodies, and what the client is told when something was thrown. */
module PipelineEndings {
  import opened Prelude
  import opened Headers
  import opened FlowModel
  import opened Encoding
  import opened Rules
  import opened Streaming
  import opened Pipeline

  // ---- what may follow what ----

  /** What the last things done say about where the handler is. */
  datatype Phase = Working | Flowing | Failing(replied: bool) | Over(replied: bool)

  function PhaseOf(t: seq<Effect>): Phase {
    if t == [] then Working
    else
      var n := |t| - 1;
      if t[n].StreamStart? || t[n].Data? then Flowing
      else if t[n] == Hook(OnError) then Failing(n > 0 && t[n - 1].Reply?)
      else if t[n].Reply? then Over(true)
      else if t[n].Notice? || t[n].Close? || t[n].Destroy? then Over(false)
      else Working
  }

  /** Chunks and the close belong to a stream, the error hook is answered once, and after the end of a response there
      is nothing but an error. */
  predicate Follows(phase: Phase, e: Effect) {
    match phase
    case Working => !e.Data? && !e.Close?
    case Flowing => e.Data? || e.Close?
    case Failing(replied) => if replied then e.Close? else e.Notice? && e.status == 502
    case Over(replied) => replied && e == Hook(OnError)
  }

  ghost predicate Sequenced(t: seq<Effect>) {
    forall i | 0 <= i < |t| :: Follows(PhaseOf(t[..i]), t[i])
  }

  lemma SequencedSnoc(t: seq<Effect>, e: Effect)
    requires Sequenced(t) && Follows(PhaseOf(t), e)
    ensures Sequenced(t + [e])
  {
    hide Follows, PhaseOf;
    var u := t + [e];
    forall i | 0 <= i < |u|
      ensures Follows(PhaseOf(u[..i]), u[i])
    {
      if i < |t| {
        assert u[..i] == t[..i] && u[i] == t[i];
      } else {
        assert u[..i] == t;
      }
    }
  }

  lemma PhaseSnoc(t: seq<Effect>, e: Effect)
    ensures PhaseOf(t + [e])
            == if e.StreamStart? || e.Data? then Flowing
               else if e == Hook(OnError) then Failing(t != [] && t[|t| - 1].Reply?)
               else if e.Reply? then Over(true)
               else if e.Notice? || e.Close? || e.Destroy? then Over(false)
               else Working
    ensures t != [] && t[|t| - 1].Reply? <==> PhaseOf(t) == Over(true)
    ensures HeadSent(t + [e]) <==> HeadSent(t) || IsHead(e)
  {
    var u := t + [e];
    assert u[|t|] == e && u[..|t|] == t;
    assert t != [] ==> u[|t| - 1] == t[|t| - 1];
    assert forall i | 0 <= i < |t| :: u[i] == t[i];
  }

  /** One more effect. */
  lemma Extend(t: seq<Effect>, e: Effect)
    requires Sequenced(t) && Follows(PhaseOf(t), e)
    ensures Sequenced(t + [e])
    ensures PhaseOf(t + [e])
            == if e.StreamStart? || e.Data? then Flowing
               else if e == Hook(OnError) then Failing(PhaseOf(t) == Over(true))
               else if e.Reply? then Over(true)
               else if e.Notice? || e.Close? || e.Destroy? then Over(false)
               else Working
    ensures HeadSent(t + [e]) <==> HeadSent(t) || IsHead(e)
  {
    hide Sequenced, Follows, PhaseOf, HeadSent, IsHead;
    SequencedSnoc(t, e);
    PhaseSnoc(t, e);
  }

  /** Where the handler waits can be told from what it did last. */
  predicate Placed(pc: Pc, phase: Phase) {
    match pc
    case Relaying => phase == Flowing
    case ErrorHook => phase.Failing?
    case Done => phase.Over?
    case _ => phase == Working
  }

  /** At the error hook a head has been sent exactly when a whole response had. */
  ghost predicate Ends(s: State) {
    Sequenced(s.trace) && Placed(s.pc, PhaseOf(s.trace)) &&
    (PhaseOf(s.trace) == Working ==> !HeadSent(s.trace)) &&
    (s.pc.ErrorHook? ==> (HeadSent(s.trace) <==> PhaseOf(s.trace).replied))
  }

  /** The handler is at work, and nothing has gone to the client. */
  ghost predicate AtWork(s: State) {
    Sequenced(s.trace) && PhaseOf(s.trace) == Working && !HeadSent(s.trace)
  }

  lemma RaiseEnds(w: World, s: State)
    requires Sequenced(s.trace)
    requires if HeadSent(s.trace) then PhaseOf(s.trace) == Over(true) else PhaseOf(s.trace) == Working
    ensures Ends(Raise(w, s))
  {
    hide Sequenced, PhaseOf, HeadSent;
    Extend(s.trace, Hook(OnError));
  }

  lemma DecideEnds(s: State, d: Directive)
    requires AtWork(s)
    ensures Ends(Decide(s, d))
  {
    hide Sequenced, PhaseOf, HeadSent;
    if d.block {
      Extend(s.trace, Destroy);
    } else if d.mock.Some? {
      Extend(s.trace, Synthesize);
      Extend(s.trace + [Synthesize], Hook(OnResponseHeaders));
    } else {
      Extend(s.trace, Contact(s.view.request));
    }
  }

  lemma ProceedEnds(s: State, d: Directive)
    requires AtWork(s)
    ensures Ends(Proceed(s, d))
  {
    hide Sequenced, PhaseOf, HeadSent, Decide;
    DecideEnds(s, d);
  }

  lemma HoldEnds(w: World, s: State, pc: Pc)
    requires AtWork(s) && Pipeline.Held(pc)
    ensures Ends(Hold(w, s, pc))
  {
    hide Sequenced, PhaseOf, HeadSent, Raise;
    RaiseEnds(w, s);
    Extend(s.trace, Pause);
  }

  lemma WriteEnds(w: World, s: State, status: int, sent: Sent)
    requires AtWork(s)
    ensures Ends(Write(w, s, status, sent))
  {
    hide Sequenced, PhaseOf, HeadSent, BoundFlow, TooLong, Raise;
    Extend(s.trace, Reply(status, sent));
    RaiseEnds(w, s.(placed := w.keeps(status, sent.headers)));
    RaiseEnds(w, Emit(s, Reply(status, sent)).(view := BoundFlow(s.view, s.max), truncated := TooLong(s)));
  }

  lemma RelayWrites(w: World, s: State, raw: seq<byte>, decoded: seq<byte>)
    requires AtWork(s) && s.view.response.Some?
    ensures Ends(Relay(w, s, raw, decoded))
  {
    hide AtWork, Ends, Write, Relayed, HDelete;
    var r := s.view.response.value;
    var modified := r.body.Some? && r.body.value != decoded;
    var t := if modified then s.(view := s.view.(response := Some(r.(headers := HDelete(r.headers, CE))))) else s;
    assert AtWork(t) by { SameWork(s, t); }
    WriteEnds(w, t, Orr(r.statusCode, 200), Relayed(r.headers, r.body, raw, decoded));
  }

  lemma SameWork(s: State, t: State)
    requires AtWork(s) && t.trace == s.trace
    ensures AtWork(t)
  {}

  lemma HeadedEnds(w: World, s: State)
    requires AtWork(s) && s.pc.ResponseHeadersHook? && s.view.response.Some?
    ensures Ends(Headed(w, s))
  {
    hide Sequenced, PhaseOf, HeadSent, Responded, MayStream, StreamHead, Raise;
    var v := Responded(w.env, s.view, w.rules);
    RespondedSome(w.env, s.view, w.rules);
    var status := Orr(v.response.value.statusCode, 200);
    var headers := StreamHead(v.response.value.headers);
    RaiseEnds(w, s.(view := v, placed := w.keeps(status, headers)));
    Extend(s.trace, StreamStart(status, headers));
  }

  lemma HookEnds(w: World, s: State)
    requires Good(s) && Ends(s) && RunsHook(s.pc)
    ensures Ends(AfterHook(w, s))
  {
    hide Inv, Sequenced, PhaseOf, HeadSent, Proceed, Hold, Relay, Write, Headed, Requested, Responded, WriteResponse;
    hide Complaint;
    match s.pc
    case RequestHeadersHook =>
    case RequestHook =>
      var (v, d) := Requested(w.env, s.view, w.rules);
      var e := Ruled(d, w.breakpoint(v));
      var t := Emit(s.(view := v), e);
      Extend(s.trace, e);
      HoldEnds(w, t, RequestHeld(d));
      ProceedEnds(t, d);
    case MockHeadersHook => Extend(s.trace, Hook(OnResponse));
    case MockResponseHook =>
      var r := s.view.response.value;
      WriteEnds(w, s, Orr(r.statusCode, 200), WriteResponse(r.headers, OrEmpty(r.body)));
    case ResponseHeadersHook => HeadedEnds(w, s);
    case ResponseHook(raw, decoded) =>
      HoldEnds(w, s, ResponseHeld(raw, decoded));
      RelayWrites(w, s, raw, decoded);
    case ErrorHook => Extend(s.trace, if HeadSent(s.trace) then Close else Notice(502, Complaint(s)));
  }

  lemma WakeEnds(w: World, s: State)
    requires Good(s) && Ends(s)
    ensures Ends(Resumption(w, s))
  {
    hide Lawful, HookInv, TraceInv, Sequenced, PhaseOf, HeadSent, Proceed, Relay, Raise;
    if s.answer.Some? {
      var t := s.(answer := None);
      RaiseEnds(w, t);
      Extend(s.trace, Destroy);
      if s.pc.RequestHeld? {
        ProceedEnds(t, s.pc.directive);
      } else {
        RelayWrites(w, t, s.pc.raw, s.pc.decoded);
      }
    }
  }

  lemma AnswerEnds(s: State, a: Action)
    requires Good(s) && Ends(s)
    ensures Ends(Answered(s, a))
  {
    hide Lawful, HookInv, TraceInv, Sequenced, PhaseOf, HeadSent;
    if s.resolver {
      Extend(s.trace, Answer(a));
    }
  }

  lemma ArrivalEnds(w: World, s: State, e: Event)
    requires Ends(s) && (e.Body? || e.Upstream? || e.Begin?)
    ensures Ends(Next(w, s, e))
  {
    hide Sequenced, PhaseOf, HeadSent, Responded, WithRequestBody, Decoded;
    match e
    case Begin(_) =>
      if s.pc.Start? {
        Extend(s.trace, Notice(400, Sent(map[], BAD_TARGET)));
        Extend(s.trace, Hook(OnRequestHeaders));
      }
    case Body(_) =>
      if s.pc.ReadingRequest? {
        Extend(s.trace, Hook(OnRequest));
      } else if s.pc.ReadingResponse? {
        Extend(s.trace, Hook(OnResponse));
      }
    case Upstream(_) =>
      if s.pc.Contacting? {
        Extend(s.trace, Hook(OnResponseHeaders));
      }
  }

  lemma StreamEnds(w: World, s: State, e: Event)
    requires Ends(s) && (e.Chunk? || e.Ended? || e.Failed?)
    ensures Ends(Next(w, s, e))
  {
    hide Sequenced, PhaseOf, HeadSent, TapChunk, Raise;
    if s.pc.Relaying? {
      Extend(s.trace, if e.Chunk? then Data(e.bytes) else Close);
    } else if s.pc.ReadingRequest? || s.pc.Contacting? || s.pc.ReadingResponse? {
      RaiseEnds(w, s);
    }
  }

  lemma EndsKept(w: World, s: State, e: Event)
    requires Good(s) && Ends(s)
    ensures Ends(Next(w, s, e))
  {
    hide Good, Sequenced, PhaseOf, HeadSent, AfterHook, Resumption, Answered, Decide, Raise, TapChunk, Responded;
    match e
    case Hooked(v) =>
      AdoptKeeps(s, v);
      if RunsHook(s.pc) {
        HookEnds(w, Adopt(s, v));
      }
    case Woken => WakeEnds(w, s);
    case Resume => AnswerEnds(s, Resumed);
    case Kill => AnswerEnds(s, Killed);
    case Elapsed =>
      if s.pc.Delaying? {
        DecideEnds(s, s.pc.directive);
      }
    case Edit(v) =>
    case Begin(_) => ArrivalEnds(w, s, e);
    case Body(_) => ArrivalEnds(w, s, e);
    case Upstream(_) => ArrivalEnds(w, s, e);
    case _ => StreamEnds(w, s, e);
  }

  lemma {:induction false} RunEnds(s: State, moments: seq<Moment>)
    requires Good(s) && Ends(s)
    ensures Good(Run(s, moments)) && Ends(Run(s, moments))
    decreases |moments|
  {
    hide Good, Ends, Next;
    if moments != [] {
      var m := moments[0];
      EndsKept(m.world, s, m.event);
      NextKeeps(m.world, s, m.event);
      RunEnds(Next(m.world, s, m.event), moments[1..]);
    }
  }

  lemma FreshEnds(v: View, max: nat, moments: seq<Moment>)
    ensures Good(Run(Fresh(v, max), moments)) && Ends(Run(Fresh(v, max), moments))
  {
    hide Good, Run;
    FreshIsGood(v, max);
    RunEnds(Fresh(v, max), moments);
  }

  /** In every run chunks stand only between the head of a streamed response and its close; a whole response is
      followed by nothing, or by the error hook and the close; the error hook is followed by the close when a whole
      response went before and by the 502 otherwise; nothing follows a close, a 502 or 400, or the destruction of the
      connection; and the last thing done tells whether the handler streams, runs the error hook, or is done. */
  lemma EveryRunEnds(v: View, max: nat, moments: seq<Moment>)
    ensures var t := Run(Fresh(v, max), moments).trace;
            (forall i, j | 0 <= i < j < |t| && t[i].Reply? :: AfterError(t, i, j)) &&
            (forall i, j | 0 <= i < j < |t| && t[i].StreamStart? :: t[j].Data? || (t[j].Close? && j == |t| - 1)) &&
            (forall i | 0 <= i < |t| - 1 :: !t[i].Notice? && !t[i].Close? && !t[i].Destroy?) &&
            (forall j | 0 <= j < |t| && t[j].Data? :: InStream(t, j)) &&
            (forall j | 0 <= j < |t| && t[j].Close? :: EndsReply(t, j)) &&
            (forall i | 0 <= i < |t| - 1 && t[i] == Hook(OnError) ::
               if i > 0 && t[i - 1].Reply? then t[i + 1].Close? else t[i + 1].Notice? && t[i + 1].status == 502)
    ensures var s := Run(Fresh(v, max), moments); Placed(s.pc, PhaseOf(s.trace))
  {
    hide Good, Run, PhaseOf, Placed, Sequenced;
    FreshEnds(v, max, moments);
    SequenceUnfolded(Run(Fresh(v, max), moments).trace);
  }

  /** A streamed response has begun before it, and since then there have been chunks only. */
  predicate InStream(t: seq<Effect>, j: nat)
    requires j < |t|
  {
    exists i | 0 <= i < j :: t[i].StreamStart? && forall k | i < k < j :: t[k].Data?
  }

  /** It ends a streamed response, or a whole one after which something was thrown. */
  predicate EndsReply(t: seq<Effect>, j: nat)
    requires j < |t|
  {
    j > 0 && (t[j - 1].StreamStart? || t[j - 1].Data? || (j > 1 && t[j - 1] == Hook(OnError) && t[j - 2].Reply?))
  }

  /** It is the error hook right after, or the close after that. */
  predicate AfterError(t: seq<Effect>, i: nat, j: nat)
    requires i < j < |t|
  {
    (j == i + 1 && t[j] == Hook(OnError)) || (j == i + 2 && t[j].Close?)
  }

  lemma SequenceUnfolded(t: seq<Effect>)
    requires Sequenced(t)
    ensures forall i, j | 0 <= i < j < |t| && t[i].Reply? :: AfterError(t, i, j)
    ensures forall i, j | 0 <= i < j < |t| && t[i].StreamStart? :: t[j].Data? || (t[j].Close? && j == |t| - 1)
    ensures forall i | 0 <= i < |t| - 1 :: !t[i].Notice? && !t[i].Close? && !t[i].Destroy?
    ensures forall j | 0 <= j < |t| && t[j].Data? :: InStream(t, j)
    ensures forall j | 0 <= j < |t| && t[j].Close? :: EndsReply(t, j)
    ensures forall i | 0 <= i < |t| - 1 && t[i] == Hook(OnError) ::
              if i > 0 && t[i - 1].Reply? then t[i + 1].Close? else t[i + 1].Notice? && t[i + 1].status == 502
  {
    hide Sequenced, InStream, AfterError;
    forall i | 0 < i < |t|
      ensures Step(t, i)
    {
      StepHolds(t, i);
    }
    if t != [] {
      FirstStep(t);
    }
    forall i, j | 0 <= i < j < |t| && t[i].Reply?
      ensures AfterError(t, i, j)
    {
      AfterReply(t, i, j);
    }
    forall i, j | 0 <= i < j < |t| && t[i].StreamStart?
      ensures t[j].Data? || (t[j].Close? && j == |t| - 1)
    {
      AfterStart(t, i, j);
    }
    forall i | 0 <= i < |t| - 1
      ensures !t[i].Notice? && !t[i].Close? && !t[i].Destroy?
    {
      assert Step(t, i + 1);
    }
    forall j | 0 <= j < |t| && t[j].Data?
      ensures InStream(t, j)
    {
      BeforeData(t, j);
    }
    forall j | 0 <= j < |t| && t[j].Close?
      ensures EndsReply(t, j)
    {
      assert j > 0 ==> Step(t, j);
    }
    forall i | 0 <= i < |t| - 1 && t[i] == Hook(OnError)
      ensures if i > 0 && t[i - 1].Reply? then t[i + 1].Close? else t[i + 1].Notice? && t[i + 1].status == 502
    {
      assert Step(t, i + 1);
    }
  }

  /** What follows what, said of neighbours. */
  predicate Step(t: seq<Effect>, i: nat)
    requires 0 < i < |t|
  {
    var replied := i > 1 && t[i - 2].Reply?;
    (if t[i - 1].StreamStart? || t[i - 1].Data? then t[i].Data? || t[i].Close?
     else if t[i - 1] == Hook(OnError) then if replied then t[i].Close? else t[i].Notice? && t[i].status == 502
     else if t[i - 1].Reply? then t[i] == Hook(OnError)
     else !t[i].Data? && !t[i].Close?) &&
    !t[i - 1].Notice? && !t[i - 1].Close? && !t[i - 1].Destroy?
  }

  lemma StepHolds(t: seq<Effect>, i: nat)
    requires Sequenced(t) && 0 < i < |t|
    ensures Step(t, i)
  {
    assert Follows(PhaseOf(t[..i]), t[i]);
    assert t[..i][i - 1] == t[i - 1];
    assert i > 1 ==> t[..i][i - 2] == t[i - 2];
  }

  lemma FirstStep(t: seq<Effect>)
    requires Sequenced(t) && t != []
    ensures !t[0].Data? && !t[0].Close?
  {
    assert Follows(PhaseOf(t[..0]), t[0]);
  }

  lemma AfterReply(t: seq<Effect>, i: nat, j: nat)
    requires i < j < |t| && t[i].Reply? && forall k | 0 < k < |t| :: Step(t, k)
    ensures AfterError(t, i, j)
  {
    assert Step(t, i + 1);
    assert j >= i + 2 ==> Step(t, i + 2);
    assert j >= i + 3 ==> Step(t, i + 3);
  }

  lemma {:induction false} AfterStart(t: seq<Effect>, i: nat, j: nat)
    requires i < j < |t| && t[i].StreamStart? && forall k | 0 < k < |t| :: Step(t, k)
    ensures t[j].Data? || (t[j].Close? && j == |t| - 1)
    decreases j
  {
    assert Step(t, j);
    if j > i + 1 {
      AfterStart(t, i, j - 1);
    }
    assert j + 1 < |t| ==> Step(t, j + 1);
  }

  lemma {:induction false} BeforeData(t: seq<Effect>, j: nat)
    requires j < |t| && t[j].Data? && !t[0].Data? && forall k | 0 < k < |t| :: Step(t, k)
    ensures InStream(t, j)
    decreases j
  {
    assert Step(t, j);
    if t[j - 1].Data? {
      BeforeData(t, j - 1);
      var i :| 0 <= i < j - 1 && t[i].StreamStart? && forall k | i < k < j - 1 :: t[k].Data?;
      assert forall k | i < k < j :: t[k].Data?;
    } else {
      assert t[j - 1].StreamStart?;
    }
  }

  // ---- what is left of the request body ----

  predicate TooBig(q: Request, max: nat) {
    q.body.Some? && |q.body.value| > max
  }

  /** The last head sent was a whole response, and no hook has run to its end since. */
  predicate JustReplied(s: State) {
    PhaseOf(s.trace) == Failing(true) || PhaseOf(s.trace) == Over(true)
  }

  /** The same but for the maximum and what it decides. */
  ghost predicate Alike(s: State, t: State, max: nat, larger: nat) {
    SameSteps(s, t) && s.view == t.view && s.max == max <= larger == t.max
  }

  predicate SameSteps(s: State, t: State) {
    s.pc == t.pc && s.trace == t.trace && s.resolver == t.resolver && s.intercepted == t.intercepted &&
    s.answer == t.answer && s.placed == t.placed && s.error == t.error
  }

  /** Two runs of the same events under a smaller and a larger maximum. */
  ghost predicate Twins(s: State, t: State, max: nat, larger: nat) {
    SameSteps(s, t) && s.max == max <= larger == t.max &&
    if s.pc.ErrorHook? || s.pc.Done?
    then s.view.request == (if JustReplied(s) then BoundRequest(t.view.request, max) else t.view.request) &&
         (s.view.response.Some? <==> t.view.response.Some?)
    else s.view == t.view
  }

  lemma AlikeTwins(s: State, t: State, max: nat, larger: nat)
    requires Alike(s, t, max, larger) && !JustReplied(s)
    ensures Twins(s, t, max, larger)
  {
    hide PhaseOf;
  }

  lemma ActiveTwins(s: State, t: State, max: nat, larger: nat)
    requires Alike(s, t, max, larger) && Ends(s) && !s.pc.ErrorHook? && !s.pc.Done?
    ensures Twins(s, t, max, larger)
  {
    hide PhaseOf, Sequenced;
    AlikeTwins(s, t, max, larger);
  }

  /** Nothing but a reply, or an error after it, cuts. */
  lemma NotReplied(s: State, n: State, e: Effect)
    requires AtWork(s) && n.trace == s.trace + [e] && !e.Reply?
    ensures !JustReplied(n)
  {
    hide Sequenced, PhaseOf, HeadSent;
    PhaseSnoc(s.trace, e);
  }

  lemma RaiseTwins(w: World, s: State, t: State, max: nat, larger: nat)
    requires Alike(s, t, max, larger) && AtWork(s)
    ensures Twins(Raise(w, s), Raise(w, t), max, larger)
  {
    hide AtWork, JustReplied;
    NotReplied(s, Raise(w, s), Hook(OnError));
    AlikeTwins(Raise(w, s), Raise(w, t), max, larger);
  }

  lemma BoundTwice(q: Request, small: nat, large: nat)
    requires small <= large
    ensures BoundRequest(BoundRequest(q, large), small) == BoundRequest(q, small)
    ensures !TooBig(BoundRequest(q, small), small)
  {
    if q.body.Some? {
      assert |q.body.value| > large ==> q.body.value[..large][..small] == q.body.value[..small];
    }
  }

  lemma BoundFlowRequest(v: View, max: nat)
    ensures BoundFlow(v, max).request == BoundRequest(v.request, max)
    ensures BoundFlow(v, max).response.Some? <==> v.response.Some?
  {
    hide BoundRequest, BoundForStorage;
  }

  lemma WriteTwins(w: World, s: State, t: State, max: nat, larger: nat, status: int, sent: Sent)
    requires Alike(s, t, max, larger) && AtWork(s)
    ensures Twins(Write(w, s, status, sent), Write(w, t, status, sent), max, larger)
  {
    hide Sequenced, PhaseOf, HeadSent, BoundFlow, TooLong, BoundRequest;
    if !w.accepts(status, sent.headers) {
      var placed := w.keeps(status, sent.headers);
      RaiseTwins(w, s.(placed := placed), t.(placed := placed), max, larger);
    } else {
      BoundFlowRequest(s.view, max);
      BoundFlowRequest(s.view, larger);
      BoundTwice(s.view.request, max, larger);
      PhaseSnoc(s.trace, Reply(status, sent));
      PhaseSnoc(s.trace + [Reply(status, sent)], Hook(OnError));
    }
  }

  lemma DecideAlike(s: State, t: State, max: nat, larger: nat, d: Directive)
    requires Alike(s, t, max, larger)
    ensures Alike(Decide(s, d), Decide(t, d), max, larger)
  {
    hide Emit;
    if d.block {
      EmitAlike(s, t, max, larger, Destroy);
    } else if d.mock.Some? {
      EmitAlike(s, t, max, larger, Synthesize);
      EmitAlike(Emit(s, Synthesize), Emit(t, Synthesize), max, larger, Hook(OnResponseHeaders));
    } else {
      EmitAlike(s, t, max, larger, Contact(s.view.request));
    }
  }

  lemma EmitAlike(s: State, t: State, max: nat, larger: nat, e: Effect)
    requires Alike(s, t, max, larger)
    ensures Alike(Emit(s, e), Emit(t, e), max, larger)
  {}

  lemma DecideTwins(s: State, t: State, max: nat, larger: nat, d: Directive)
    requires Alike(s, t, max, larger) && AtWork(s)
    ensures Twins(Decide(s, d), Decide(t, d), max, larger)
  {
    hide AtWork, JustReplied, Ends, Twins, Alike;
    DecideAlike(s, t, max, larger, d);
    DecideEnds(s, d);
    if d.block {
      NotReplied(s, Decide(s, d), Destroy);
      AlikeTwins(Decide(s, d), Decide(t, d), max, larger);
    } else {
      ActiveTwins(Decide(s, d), Decide(t, d), max, larger);
    }
  }

  lemma ProceedTwins(s: State, t: State, max: nat, larger: nat, d: Directive)
    requires Alike(s, t, max, larger) && AtWork(s)
    ensures Twins(Proceed(s, d), Proceed(t, d), max, larger)
  {
    hide Sequenced, PhaseOf, HeadSent, Decide, BoundRequest;
    DecideTwins(s, t, max, larger, d);
  }

  lemma HoldTwins(w: World, s: State, t: State, max: nat, larger: nat, pc: Pc)
    requires Alike(s, t, max, larger) && AtWork(s) && Pipeline.Held(pc)
    ensures Twins(Hold(w, s, pc), Hold(w, t, pc), max, larger)
  {
    hide Sequenced, PhaseOf, HeadSent, Raise, BoundRequest;
    RaiseTwins(w, s, t, max, larger);
  }

  lemma RelayTwins(w: World, s: State, t: State, max: nat, larger: nat, raw: seq<byte>, decoded: seq<byte>)
    requires Alike(s, t, max, larger) && AtWork(s) && s.view.response.Some?
    ensures Twins(Relay(w, s, raw, decoded), Relay(w, t, raw, decoded), max, larger)
  {
    hide Sequenced, PhaseOf, HeadSent, Twins, Write, Relayed, HDelete;
    var r := s.view.response.value;
    var modified := r.body.Some? && r.body.value != decoded;
    var v := s.view.(response := Some(r.(headers := HDelete(r.headers, CE))));
    WriteTwins(w, if modified then s.(view := v) else s, if modified then t.(view := v) else t, max, larger,
               Orr(r.statusCode, 200), Relayed(r.headers, r.body, raw, decoded));
  }

  lemma HeadedAlike(w: World, s: State, t: State, max: nat, larger: nat)
    requires Alike(s, t, max, larger) && s.pc.ResponseHeadersHook? && s.view.response.Some?
    ensures Alike(Headed(w, s), Headed(w, t), max, larger)
    ensures var n := Headed(w, s); n.pc.ErrorHook? ==> n.trace == s.trace + [Hook(OnError)]
    ensures !Headed(w, s).pc.Done?
  {
    hide Emit, Responded, MayStream, StreamHead;
    var v := Responded(w.env, s.view, w.rules);
    RespondedSome(w.env, s.view, w.rules);
    var status := Orr(v.response.value.statusCode, 200);
    var headers := StreamHead(v.response.value.headers);
    var placed := w.keeps(status, headers);
    EmitAlike(s, t, max, larger, StreamStart(status, headers));
    EmitAlike(s.(view := v, placed := placed), t.(view := v, placed := placed), max, larger, Hook(OnError));
    assert Emit(s.(view := v, placed := placed), Hook(OnError)).trace == s.trace + [Hook(OnError)] by {
      EmitTrace(s.(view := v, placed := placed), Hook(OnError));
    }
  }

  lemma EmitTrace(s: State, e: Effect)
    ensures Emit(s, e).trace == s.trace + [e]
  {}

  lemma HeadedTwins(w: World, s: State, t: State, max: nat, larger: nat)
    requires Alike(s, t, max, larger) && AtWork(s) && s.pc.ResponseHeadersHook? && s.view.response.Some?
    ensures Twins(Headed(w, s), Headed(w, t), max, larger)
  {
    hide AtWork, JustReplied, Ends, Twins, Headed;
    var n := Headed(w, s);
    HeadedAlike(w, s, t, max, larger);
    HeadedEnds(w, s);
    if n.pc.ErrorHook? {
      NotReplied(s, n, Hook(OnError));
      AlikeTwins(n, Headed(w, t), max, larger);
    } else {
      ActiveTwins(n, Headed(w, t), max, larger);
    }
  }

  lemma HookTwins(w: World, s: State, t: State, max: nat, larger: nat)
    requires Good(s) && Ends(s) && Alike(s, t, max, larger) && RunsHook(s.pc) && !s.pc.ErrorHook?
    ensures Twins(AfterHook(w, s), AfterHook(w, t), max, larger)
  {
    hide Inv, Sequenced, PhaseOf, HeadSent, Proceed, Hold, Relay, Write, Headed, Requested, Responded, WriteResponse;
    hide BoundRequest;
    match s.pc
    case RequestHeadersHook =>
    case RequestHook => RequestTwins(w, s, t, max, larger);
    case MockHeadersHook =>
    case MockResponseHook =>
      var r := s.view.response.value;
      WriteTwins(w, s, t, max, larger, Orr(r.statusCode, 200), WriteResponse(r.headers, OrEmpty(r.body)));
    case ResponseHeadersHook => HeadedTwins(w, s, t, max, larger);
    case ResponseHook(raw, decoded) =>
      HoldTwins(w, s, t, max, larger, ResponseHeld(raw, decoded));
      RelayTwins(w, s, t, max, larger, raw, decoded);
  }

  lemma RequestTwins(w: World, s: State, t: State, max: nat, larger: nat)
    requires Ends(s) && Alike(s, t, max, larger) && s.pc.RequestHook?
    ensures Twins(AfterHook(w, s), AfterHook(w, t), max, larger)
  {
    hide Sequenced, PhaseOf, HeadSent, Proceed, Hold, Requested, Twins;
    var (v, d) := Requested(w.env, s.view, w.rules);
    var e := Ruled(d, w.breakpoint(v));
    Extend(s.trace, e);
    HoldTwins(w, Emit(s.(view := v), e), Emit(t.(view := v), e), max, larger, RequestHeld(d));
    ProceedTwins(Emit(s.(view := v), e), Emit(t.(view := v), e), max, larger, d);
  }

  lemma ErrorStep(w: World, s: State, v: View)
    requires s.pc.ErrorHook?
    ensures var e := if HeadSent(s.trace) then Close else Notice(502, Complaint(s));
            Next(w, s, Hooked(v)) == Adopt(s, v).(pc := Done, trace := s.trace + [e])
  {
    hide HeadSent, Complaint;
    SameComplaint(s, Adopt(s, v));
  }

  /** The error hook may leave any request, cut or not. */
  lemma ErrorTwins(w: World, s: State, t: State, max: nat, larger: nat, v: View)
    requires Twins(s, t, max, larger) && s.pc.ErrorHook?
    ensures Twins(Next(w, s, Hooked(v)), Next(w, t, Hooked(v)), max, larger)
  {
    hide PhaseOf, HeadSent, BoundRequest, Complaint, Next;
    ErrorStep(w, s, v);
    ErrorStep(w, t, v);
    SameComplaint(s, t);
    PhaseSnoc(s.trace, if HeadSent(s.trace) then Close else Notice(502, Complaint(s)));
  }

  lemma SameComplaint(s: State, t: State)
    requires s.placed == t.placed && s.error == t.error
    ensures Complaint(s) == Complaint(t)
  {}

  lemma WakeTwins(w: World, s: State, t: State, max: nat, larger: nat)
    requires Good(s) && Ends(s) && Alike(s, t, max, larger)
    ensures s.answer.Some? ==> Twins(Resumption(w, s), Resumption(w, t), max, larger)
    ensures s.answer.None? ==> Resumption(w, s) == s && Resumption(w, t) == t
  {
    hide Lawful, HookInv, TraceInv, Sequenced, PhaseOf, HeadSent, Proceed, Relay, Raise, BoundRequest;
    if s.answer.Some? {
      var a, b := s.(answer := None), t.(answer := None);
      RaiseTwins(w, a, b, max, larger);
      PhaseSnoc(s.trace, Destroy);
      if s.pc.RequestHeld? {
        ProceedTwins(a, b, max, larger, s.pc.directive);
      } else {
        RelayTwins(w, a, b, max, larger, s.pc.raw, s.pc.decoded);
      }
    }
  }

  /** The end of a stream records different copies, but the request stays. */
  lemma FinishTwins(s: State, t: State, max: nat, larger: nat)
    requires Alike(s, t, max, larger)
    ensures Twins(Finished(s), Finished(t), max, larger)
  {
    hide PhaseOf, Concat;
    PhaseSnoc(s.trace, Close);
  }

  predicate Arrival(e: Event) {
    e.Begin? || e.Body? || e.Upstream?
  }

  predicate Touch(e: Event) {
    e.Resume? || e.Kill? || e.Edit? || e.Chunk?
  }

  lemma ArrivalAlike(w: World, s: State, t: State, max: nat, larger: nat, e: Event)
    requires Alike(s, t, max, larger) && !s.pc.ErrorHook? && !s.pc.Done? && Arrival(e)
    ensures Alike(Next(w, s, e), Next(w, t, e), max, larger)
    ensures var n := Next(w, s, e);
            !n.pc.ErrorHook? &&
            (n.pc.Done? ==> s.pc.Start? && n.trace == s.trace + [Notice(400, Sent(map[], BAD_TARGET))])
  {
    hide Emit, Responded, WithRequestBody, Decoded;
    match e
    case Begin(_) =>
      EmitAlike(s, t, max, larger, Notice(400, Sent(map[], BAD_TARGET)));
      EmitTrace(s, Notice(400, Sent(map[], BAD_TARGET)));
      EmitAlike(s, t, max, larger, Hook(OnRequestHeaders));
    case Body(_) =>
      EmitAlike(s, t, max, larger, Hook(OnRequest));
      EmitAlike(s, t, max, larger, Hook(HookName.OnResponse));
    case Upstream(_) => EmitAlike(s, t, max, larger, Hook(OnResponseHeaders));
  }

  lemma ArrivalTwins(w: World, s: State, t: State, max: nat, larger: nat, e: Event)
    requires Ends(s) && Alike(s, t, max, larger) && !s.pc.ErrorHook? && !s.pc.Done? && Arrival(e)
    ensures Twins(Next(w, s, e), Next(w, t, e), max, larger)
  {
    hide JustReplied, Ends, Twins, Alike, Next;
    var n := Next(w, s, e);
    ArrivalAlike(w, s, t, max, larger, e);
    ArrivalEnds(w, s, e);
    if n.pc.Done? {
      Beginning(s);
      NotReplied(s, n, Notice(400, Sent(map[], BAD_TARGET)));
      AlikeTwins(n, Next(w, t, e), max, larger);
    } else {
      ActiveTwins(n, Next(w, t, e), max, larger);
    }
  }

  lemma Beginning(s: State)
    requires Ends(s) && s.pc.Start?
    ensures AtWork(s)
  {
    hide Sequenced, PhaseOf, HeadSent;
  }

  lemma TouchTwins(w: World, s: State, t: State, max: nat, larger: nat, e: Event)
    requires Good(s) && Ends(s) && Alike(s, t, max, larger) && !s.pc.ErrorHook? && !s.pc.Done? && Touch(e)
    ensures Twins(Next(w, s, e), Next(w, t, e), max, larger)
  {
    hide Good, JustReplied, Ends, Twins, TapChunk;
    EndsKept(w, s, e);
    ActiveTwins(Next(w, s, e), Next(w, t, e), max, larger);
  }

  lemma OtherTwins(w: World, s: State, t: State, max: nat, larger: nat, e: Event)
    requires Good(s) && Ends(s) && Alike(s, t, max, larger) && !s.pc.ErrorHook? && !s.pc.Done?
    requires !e.Hooked? && !e.Woken?
    ensures Twins(Next(w, s, e), Next(w, t, e), max, larger)
  {
    hide Inv, Sequenced, PhaseOf, HeadSent, Decide, Raise, BoundRequest, Pipeline.Finished;
    if Arrival(e) {
      ArrivalTwins(w, s, t, max, larger, e);
    } else if Touch(e) {
      TouchTwins(w, s, t, max, larger, e);
    } else if s.pc.Delaying? {
      DecideTwins(s, t, max, larger, s.pc.directive);
    } else if s.pc.Relaying? {
      FinishTwins(s, t, max, larger);
    } else {
      RaiseTwins(w, s, t, max, larger);
    }
  }

  lemma TwinsStep(w: World, s: State, t: State, max: nat, larger: nat, e: Event)
    requires Good(s) && Ends(s) && Twins(s, t, max, larger)
    ensures Twins(Next(w, s, e), Next(w, t, e), max, larger)
  {
    hide Lawful, HookInv, TraceInv, Ends, PhaseOf, AfterHook, Resumption, Decide, Responded, BoundRequest;
    if s.pc.ErrorHook? && e.Hooked? {
      ErrorTwins(w, s, t, max, larger, e.view);
    } else if s.pc.ErrorHook? || s.pc.Done? {
      OverStays(w, s, e);
      OverStays(w, t, e);
    } else if e.Hooked? && RunsHook(s.pc) {
      AdoptKeeps(s, e.view);
      SameEnds(s, Adopt(s, e.view));
      HookTwins(w, Adopt(s, e.view), Adopt(t, e.view), max, larger);
    } else if e.Woken? {
      WakeTwins(w, s, t, max, larger);
    } else if !e.Hooked? {
      OtherTwins(w, s, t, max, larger, e);
    }
  }

  lemma SameEnds(s: State, t: State)
    requires Ends(s) && t.pc == s.pc && t.trace == s.trace
    ensures Ends(t)
  {}

  lemma OverStays(w: World, s: State, e: Event)
    requires (s.pc.ErrorHook? && !e.Hooked?) || s.pc.Done?
    requires !s.resolver && s.answer.None?
    ensures Next(w, s, e) == s
  {}

  lemma {:induction false} RunTwins(s: State, t: State, max: nat, larger: nat, moments: seq<Moment>)
    requires Good(s) && Ends(s) && Twins(s, t, max, larger)
    ensures Twins(Run(s, moments), Run(t, moments), max, larger)
    decreases |moments|
  {
    hide Good, Ends, Next, Twins;
    if moments != [] {
      var m := moments[0];
      TwinsStep(m.world, s, t, max, larger, m.event);
      EndsKept(m.world, s, m.event);
      NextKeeps(m.world, s, m.event);
      RunTwins(Next(m.world, s, m.event), Next(m.world, t, m.event), max, larger, moments[1..]);
    }
  }

  /** In every run, compared with the same events under any larger maximum: the same is done, and at the end the
      request recorded is cut to the maximum when the last thing done was to write a whole response, and left as it is
      however else it ended: blocked, killed, streamed, or in an error. So the body recorded exceeds the maximum if
      and only if it was longer and the run ended otherwise than by such a reply. */
  lemma RequestCutIff(v: View, max: nat, larger: nat, moments: seq<Moment>)
    requires max <= larger
    ensures var s := Run(Fresh(v, max), moments);
            var t := Run(Fresh(v, larger), moments);
            s.trace == t.trace && s.pc == t.pc &&
            (s.pc.Done? ==>
               var replied := s.trace != [] && s.trace[|s.trace| - 1].Reply?;
               s.view.request == (if replied then BoundRequest(t.view.request, max) else t.view.request) &&
               (TooBig(s.view.request, max) <==> !replied && TooBig(t.view.request, max)))
  {
    hide Good, Run, Sequenced, BoundRequest, TooBig, HeadSent;
    var a, b := Fresh(v, max), Fresh(v, larger);
    FreshIsGood(v, max);
    FreshEnds(v, max, []);
    FreshEnds(v, max, moments);
    assert Run(a, []) == a by { RunNothing(a); }
    AlikeTwins(a, b, max, larger);
    RunTwins(a, b, max, larger, moments);
    BoundTwice(Run(b, moments).view.request, max, larger);
  }

  lemma RunNothing(s: State)
    ensures Run(s, []) == s
  {}
}
