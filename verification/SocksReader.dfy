/** The exact-length reader of src/core/socks.ts: bytes are buffered as they arrive, and queued reads are
    answered in order as soon as enough bytes are there. */
module SocksReader {
  import opened Prelude

  datatype State = State(buf: seq<byte>, waiters: seq<nat>, resolved: seq<Option<seq<byte>>>, done: bool)

  /** Answer queued reads from the buffer, oldest first, while it holds enough. */
  function Pumped(s: State): State
    decreases |s.waiters|
  {
    if s.waiters == [] || |s.buf| < s.waiters[0] then s
    else
      var n := s.waiters[0];
      Pumped(s.(buf := s.buf[n..], waiters := s.waiters[1..], resolved := s.resolved + [Some(s.buf[..n])]))
  }

  datatype Event = Read(n: nat) | Chunk(bytes: seq<byte>) | End

  function Handle(s: State, e: Event): State {
    match e
    case Read(n) =>
      if s.done then s.(resolved := s.resolved + [None]) else Pumped(s.(waiters := s.waiters + [n]))
    case Chunk(bytes) => Pumped(s.(buf := s.buf + bytes))
    case End => s.(done := true, resolved := s.resolved + seq(|s.waiters|, _ => None), waiters := [])
  }

  class Reader {
    var buf: seq<byte>
    var waiters: seq<nat>
    var resolved: seq<Option<seq<byte>>>
    var done: bool

    constructor (initial: seq<byte>)
      ensures Snapshot() == State(initial, [], [], false)
    {
      buf, waiters, resolved, done := initial, [], [], false;
    }

    function Snapshot(): State
      reads this
    {
      State(buf, waiters, resolved, done)
    }

    method Pump()
      modifies this`buf, this`waiters, this`resolved
      ensures Snapshot() == Pumped(old(Snapshot()))
    {
      while |waiters| > 0 && |buf| >= waiters[0]
        invariant Pumped(Snapshot()) == Pumped(old(Snapshot()))
        invariant done == old(done)
        decreases |waiters|
      {
        var n := waiters[0];
        waiters := waiters[1..];
        var out := buf[..n];
        buf := buf[n..];
        resolved := resolved + [Some(out)];
      }
    }

    method OnData(d: seq<byte>)
      modifies this
      ensures Snapshot() == Handle(old(Snapshot()), Chunk(d))
    {
      buf := buf + d;
      Pump();
    }

    method OnEnd()
      modifies this
      ensures Snapshot() == Handle(old(Snapshot()), End)
    {
      done := true;
      resolved := resolved + seq(|waiters|, _ => None);
      waiters := [];
    }

    method RequestRead(n: nat)
      modifies this
      ensures Snapshot() == Handle(old(Snapshot()), Read(n))
    {
      if done {
        resolved := resolved + [None];
      } else {
        waiters := waiters + [n];
        Pump();
      }
    }
  }

  // ---- reads and arrivals in any order ----

  function HandleAll(s: State, es: seq<Event>): State
    decreases |es|
  {
    if es == [] then s else HandleAll(Handle(s, es[0]), es[1..])
  }

  /** The pieces of a stream cut at the given sizes, as far as it reaches. */
  function CutInto(stream: seq<byte>, sizes: seq<nat>): (r: seq<Option<seq<byte>>>)
    ensures |r| <= |sizes|
    decreases |sizes|
  {
    if sizes == [] || |stream| < sizes[0] then []
    else [Some(stream[..sizes[0]])] + CutInto(stream[sizes[0]..], sizes[1..])
  }

  /** What is left of the stream after those pieces. */
  function CutRest(stream: seq<byte>, sizes: seq<nat>): seq<byte>
    decreases |sizes|
  {
    if sizes == [] || |stream| < sizes[0] then stream else CutRest(stream[sizes[0]..], sizes[1..])
  }

  function Sizes(es: seq<Event>): seq<nat> {
    if es == [] then [] else (if es[0].Read? then [es[0].n] else []) + Sizes(es[1..])
  }

  function Arrived(es: seq<Event>): seq<byte> {
    if es == [] then [] else (if es[0].Chunk? then es[0].bytes else []) + Arrived(es[1..])
  }

  /** Pumping is cutting the buffer at the queued sizes. */
  lemma {:induction false} PumpCuts(s: State)
    ensures var cut := CutInto(s.buf, s.waiters);
            Pumped(s) == s.(buf := CutRest(s.buf, s.waiters), waiters := s.waiters[|cut|..],
                            resolved := s.resolved + cut)
    decreases |s.waiters|
  {
    if s.waiters == [] || |s.buf| < s.waiters[0] {
      assert s.resolved + [] == s.resolved && s.waiters[0..] == s.waiters;
    } else {
      var n := s.waiters[0];
      var t := s.(buf := s.buf[n..], waiters := s.waiters[1..], resolved := s.resolved + [Some(s.buf[..n])]);
      PumpCuts(t);
      var rest := CutInto(t.buf, t.waiters);
      assert s.resolved + ([Some(s.buf[..n])] + rest) == t.resolved + rest;
      assert s.waiters[|rest| + 1..] == t.waiters[|rest|..];
    }
  }

  /** More bytes and more reads only extend what has been cut. */
  lemma {:induction false} CutExtends(stream: seq<byte>, more: seq<byte>, sizes: seq<nat>, extra: seq<nat>)
    ensures var cut := CutInto(stream, sizes);
            var rest := CutRest(stream, sizes);
            var left := sizes[|cut|..] + extra;
            CutInto(stream + more, sizes + extra) == cut + CutInto(rest + more, left) &&
            CutRest(stream + more, sizes + extra) == CutRest(rest + more, left)
    decreases |sizes|
  {
    if sizes == [] || |stream| < sizes[0] {
      assert sizes[0..] == sizes;
    } else {
      var n := sizes[0];
      CutExtends(stream[n..], more, sizes[1..], extra);
      var cut := CutInto(stream[n..], sizes[1..]);
      assert (stream + more)[n..] == stream[n..] + more && (stream + more)[..n] == stream[..n];
      assert (sizes + extra)[1..] == sizes[1..] + extra;
      assert sizes[|cut| + 1..] == sizes[1..][|cut|..];
    }
  }

  /** In any order of reads and arrivals before the end of the stream, the reads are answered with the
      stream cut at their sizes: nothing is lost, repeated or reordered, and neither chunking nor the
      moment at which a read is issued makes a difference. */
  lemma {:induction false} ReadsCutTheStream(initial: seq<byte>, es: seq<Event>)
    requires forall e | e in es :: !e.End?
    ensures var s := HandleAll(State(initial, [], [], false), es);
            var stream := initial + Arrived(es);
            s.resolved == CutInto(stream, Sizes(es)) &&
            s.buf == CutRest(stream, Sizes(es)) &&
            s.waiters == Sizes(es)[|s.resolved|..]
  {
    hide HandleAll, CutInto, CutRest, Sizes, Arrived;
    assert CutRest(initial, []) == initial && CutInto(initial, []) == [] by { NoCuts(initial); }
    FromHere(initial, [], es);
    assert [] + Sizes(es) == Sizes(es);
  }

  lemma NoCuts(stream: seq<byte>)
    ensures CutRest(stream, []) == stream && CutInto(stream, []) == []
  {}

  /** The state reached after "stream" has arrived and reads of "sizes" have been issued. */
  function Reached(stream: seq<byte>, sizes: seq<nat>): State {
    var cut := CutInto(stream, sizes);
    State(CutRest(stream, sizes), sizes[|cut|..], cut, false)
  }

  lemma {:induction false} FromHere(stream: seq<byte>, sizes: seq<nat>, es: seq<Event>)
    requires forall e | e in es :: !e.End?
    ensures HandleAll(Reached(stream, sizes), es) == Reached(stream + Arrived(es), sizes + Sizes(es))
    decreases |es|
  {
    hide CutInto, CutRest, Pumped, Handle, Reached;
    if es == [] {
      assert stream + [] == stream && sizes + [] == sizes;
    } else {
      assert es[0] in es;
      var more := if es[0].Chunk? then es[0].bytes else [];
      var extra := if es[0].Read? then [es[0].n] else [];
      OneEvent(stream, sizes, es[0]);
      FromHere(stream + more, sizes + extra, es[1..]);
      assert stream + Arrived(es) == stream + more + Arrived(es[1..]);
      assert sizes + Sizes(es) == sizes + extra + Sizes(es[1..]);
    }
  }

  lemma OneEvent(stream: seq<byte>, sizes: seq<nat>, e: Event)
    requires !e.End?
    ensures var more := if e.Chunk? then e.bytes else [];
            var extra := if e.Read? then [e.n] else [];
            Handle(Reached(stream, sizes), e) == Reached(stream + more, sizes + extra)
  {
    hide CutInto, CutRest, Pumped;
    var more := if e.Chunk? then e.bytes else [];
    var extra := if e.Read? then [e.n] else [];
    var s := Reached(stream, sizes);
    CutExtends(stream, more, sizes, extra);
    var t := s.(buf := s.buf + more, waiters := s.waiters + extra);
    assert s.buf + [] == s.buf && s.waiters + [] == s.waiters;
    PumpCuts(t);
    var cut := CutInto(stream, sizes);
    var next := CutInto(t.buf, t.waiters);
    assert (sizes + extra)[|cut| + |next|..] == t.waiters[|next|..];
  }

  /** Conservation: the answered pieces and the buffer are together the bytes received. */
  lemma {:induction false} NothingLost(stream: seq<byte>, sizes: seq<nat>)
    ensures Joined(CutInto(stream, sizes)) + CutRest(stream, sizes) == stream
    decreases |sizes|
  {
    if sizes != [] && |stream| >= sizes[0] {
      NothingLost(stream[sizes[0]..], sizes[1..]);
    }
  }

  function Joined(pieces: seq<Option<seq<byte>>>): seq<byte> {
    if pieces == [] then [] else (if pieces[0].Some? then pieces[0].value else []) + Joined(pieces[1..])
  }
}
