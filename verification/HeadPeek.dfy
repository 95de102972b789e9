/** Waiting for a complete request head on a raw socket (src/core/head-parser.ts, peekRequestHead). */
module HeadPeek {
  import opened Prelude

  const MAX_HEAD: nat := 65536

  /** Still waiting; or given up; or handed on to the parser as head and rest. */
  datatype Peek =
    | Pending(buf: seq<byte>)
    | GaveUp
    | Handed(head: seq<byte>, rest: seq<byte>)

  function Consider(buf: seq<byte>): Peek {
    match IndexOf(buf, HEAD_END)
    case Some(idx) => Handed(buf[..idx + 4], buf[idx + 4..])
    case None => if |buf| > MAX_HEAD then GaveUp else Pending(buf)
  }

  /** One more chunk; the listeners are gone once the peek is settled. */
  function OnChunk(p: Peek, chunk: seq<byte>): Peek {
    match p case Pending(buf) => Consider(buf + chunk) case _ => p
  }

  function PeekAll(p: Peek, chunks: seq<seq<byte>>): Peek
    decreases |chunks|
  {
    if chunks == [] then p else PeekAll(OnChunk(p, chunks[0]), chunks[1..])
  }

  class Peeker {
    var buf: seq<byte>
    var settled: bool
    var result: Option<(seq<byte>, seq<byte>)>

    function State(): Peek
      reads this
    {
      if !settled then Pending(buf) else if result.None? then GaveUp else Handed(result.value.0, result.value.1)
    }

    /** The bytes read before peeking started are considered at once. */
    constructor (initial: seq<byte>)
      ensures State() == OnChunk(Pending([]), initial)
    {
      buf, settled, result := initial, false, None;
      new;
      assert [] + initial == initial;
      if |buf| > 0 {
        ConsiderBuffer();
      } else {
        NothingYet();
      }
    }

    method Finish(r: Option<(seq<byte>, seq<byte>)>)
      modifies this`settled, this`result
      ensures settled && result == if old(settled) then old(result) else r
    {
      if settled {
        return;
      }
      settled := true;
      result := r;
    }

    method ConsiderBuffer()
      requires !settled
      modifies this`settled, this`result
      ensures State() == Consider(buf)
    {
      var idx := IndexOf(buf, HEAD_END);
      if idx.None? {
        if |buf| > MAX_HEAD {
          Finish(None);
        }
      } else {
        Finish(Some((buf[..idx.value + 4], buf[idx.value + 4..])));
      }
    }

    method OnData(chunk: seq<byte>)
      modifies this
      ensures State() == OnChunk(old(State()), chunk)
    {
      if settled {
        return;
      }
      buf := buf + chunk;
      ConsiderBuffer();
    }

    method OnEnd()
      modifies this`settled, this`result
      ensures State() == if old(State()).Pending? then GaveUp else old(State())
    {
      Finish(None);
    }
  }

  lemma NothingYet()
    ensures Consider([]) == Pending([])
  {
    assert IndexOf<byte>([], HEAD_END).None?;
  }

  /** While pending, the buffer holds all bytes received, no complete head, and at most MAX_HEAD bytes. */
  ghost predicate Waiting(p: Peek, received: seq<byte>) {
    p == Pending(received) && IndexOf(received, HEAD_END).None? && |received| <= MAX_HEAD
  }

  /** What the peek must look like after "received" has arrived in chunks, of which a first few were read. */
  ghost predicate Explains(p: Peek, chunks: seq<seq<byte>>) {
    match p
    case Pending(buf) => Waiting(p, Concat(chunks))
    case GaveUp => exists n | 0 <= n <= |chunks| :: TooLong(Concat(chunks[..n]))
    case Handed(head, rest) => exists n | 0 <= n <= |chunks| :: SplitsAt(head, rest, Concat(chunks[..n]))
  }

  ghost predicate TooLong(read: seq<byte>) {
    IndexOf(read, HEAD_END).None? && |read| > MAX_HEAD
  }

  /** Head and rest are together the bytes read, and the head ends with their first CRLFCRLF. */
  ghost predicate SplitsAt(head: seq<byte>, rest: seq<byte>, read: seq<byte>) {
    head + rest == read && |head| >= 4 && IndexOf(read, HEAD_END) == Some(|head| - 4)
  }

  lemma IndexBound(s: seq<byte>)
    ensures IndexOf(s, HEAD_END).Some? ==> IndexOf(s, HEAD_END).value + 4 <= |s|
  {}

  lemma ChunkExplained(p: Peek, chunks: seq<seq<byte>>, chunk: seq<byte>)
    requires Explains(p, chunks)
    ensures Explains(OnChunk(p, chunk), chunks + [chunk])
  {
    hide IndexOf, Concat, OccursAt;
    var all := chunks + [chunk];
    match p
    case Pending(buf) =>
      ConcatSnoc(chunks, chunk);
      IndexBound(buf + chunk);
      assert all[..|all|] == all;
      var q := OnChunk(p, chunk);
      if q.GaveUp? {
        assert TooLong(Concat(all[..|all|]));
      } else if q.Handed? {
        assert q.head + q.rest == buf + chunk;
        assert SplitsAt(q.head, q.rest, Concat(all[..|all|]));
      }
    case GaveUp =>
      var n :| 0 <= n <= |chunks| && TooLong(Concat(chunks[..n]));
      assert all[..n] == chunks[..n];
    case Handed(head, rest) =>
      var n :| 0 <= n <= |chunks| && SplitsAt(head, rest, Concat(chunks[..n]));
      assert all[..n] == chunks[..n];
  }

  /** Over every chunking: while pending the buffer is everything received and within the bound; a head is
      handed on with all the bytes received by then; giving up happens only past the bound. */
  lemma {:induction false} PeekExplained(chunks: seq<seq<byte>>)
    ensures Explains(PeekAll(Pending([]), chunks), chunks)
    decreases |chunks|
  {
    hide Explains, OnChunk;
    if chunks == [] {
      assert Explains(Pending([]), []) by { BeginExplained(); }
    } else {
      var n := |chunks| - 1;
      PeekExplained(chunks[..n]);
      PeekSnoc(Pending([]), chunks[..n], chunks[n]);
      ChunkExplained(PeekAll(Pending([]), chunks[..n]), chunks[..n], chunks[n]);
      assert chunks[..n] + [chunks[n]] == chunks;
    }
  }

  lemma BeginExplained()
    ensures Explains(Pending([]), [])
  {
    assert IndexOf<byte>([], HEAD_END).None?;
  }

  lemma {:induction false} PeekSnoc(p: Peek, chunks: seq<seq<byte>>, chunk: seq<byte>)
    ensures PeekAll(p, chunks + [chunk]) == OnChunk(PeekAll(p, chunks), chunk)
    decreases |chunks|
  {
    hide OnChunk;
    if chunks == [] {
      assert [] + [chunk] == [chunk];
      assert [chunk][1..] == [];
    } else {
      assert (chunks + [chunk])[1..] == chunks[1..] + [chunk];
      PeekSnoc(OnChunk(p, chunks[0]), chunks[1..], chunk);
    }
  }

  lemma {:induction false} PrefixOfConcat(chunks: seq<seq<byte>>, n: nat)
    requires n <= |chunks|
    ensures Concat(chunks) == Concat(chunks[..n]) + Concat(chunks[n..])
  {
    ConcatAppend(chunks[..n], chunks[n..]);
    assert chunks[..n] + chunks[n..] == chunks;
  }

  /** A head whose terminator starts at or below MAX_HEAD - 3 is handed on under every chunking, and always
      as the same bytes. */
  lemma ShortHeadIsHanded(chunks: seq<seq<byte>>, k: nat)
    requires IndexOf(Concat(chunks), HEAD_END) == Some(k) && k + 3 <= MAX_HEAD
    ensures var p := PeekAll(Pending([]), chunks);
            p.Handed? && p.head == Concat(chunks)[..k + 4]
  {
    hide IndexOf, Concat, PeekAll;
    PeekExplained(chunks);
    var p := PeekAll(Pending([]), chunks);
    var s := Concat(chunks);
    match p
    case Pending(buf) =>
      assert false;
    case GaveUp =>
      var n :| 0 <= n <= |chunks| && TooLong(Concat(chunks[..n]));
      PrefixOfConcat(chunks, n);
      FoundEarly(Concat(chunks[..n]), Concat(chunks[n..]), k);
      assert false;
    case Handed(head, rest) =>
      var n :| 0 <= n <= |chunks| && SplitsAt(head, rest, Concat(chunks[..n]));
      PrefixOfConcat(chunks, n);
      IndexOfStable(Concat(chunks[..n]), Concat(chunks[n..]), HEAD_END);
      assert s == head + (rest + Concat(chunks[n..]));
  }

  /** A prefix that reaches past the terminator contains it. */
  lemma FoundEarly(a: seq<byte>, b: seq<byte>, k: nat)
    requires IndexOf(a + b, HEAD_END) == Some(k) && k + 4 <= |a|
    ensures IndexOf(a, HEAD_END).Some?
  {
    OccursAtPrefix(a, b, HEAD_END, k);
  }

  /** From MAX_HEAD - 2 on, a chunk boundary just before the last byte of the terminator makes the peek give
      up, although a single chunk would have been handed on. */
  lemma LongHeadDependsOnChunks(s: seq<byte>, k: nat)
    requires IndexOf(s, HEAD_END) == Some(k) && k + 3 > MAX_HEAD
    ensures k + 4 <= |s|
    ensures PeekAll(Pending([]), [s[..k + 3], s[k + 3..]]) == GaveUp
    ensures PeekAll(Pending([]), [s]) == Handed(s[..k + 4], s[k + 4..])
  {
    hide IndexOf;
    IndexBound(s);
    var a, b := s[..k + 3], s[k + 3..];
    assert s == a + b;
    assert IndexOf(a, HEAD_END).None? by {
      if IndexOf(a, HEAD_END).Some? {
        IndexOfStable(a, b, HEAD_END);
        IndexBound(a);
        assert false;
      }
    }
    assert [] + a == a && [] + s == s;
    assert [a, b][1..] == [b] && [b][1..] == [];
    assert PeekAll(GaveUp, [b]) == GaveUp;
    assert [s][1..] == [];
  }

  /** The exact bound: a stream whose first CRLFCRLF starts at k reaches the parser under every chunking if
      and only if k + 3 is at most 65536. */
  lemma HeadBound(s: seq<byte>, k: nat)
    requires IndexOf(s, HEAD_END) == Some(k)
    ensures (forall chunks | Concat(chunks) == s :: PeekAll(Pending([]), chunks).Handed?)
            <==> k + 3 <= 65536
  {
    hide IndexOf, PeekAll, Concat;
    if k + 3 <= MAX_HEAD {
      forall chunks | Concat(chunks) == s
        ensures PeekAll(Pending([]), chunks).Handed?
      {
        ShortHeadIsHanded(chunks, k);
      }
    } else {
      LongHeadDependsOnChunks(s, k);
      var chunks := [s[..k + 3], s[k + 3..]];
      ConcatSnoc([s[..k + 3]], s[k + 3..]);
      ConcatSnoc<byte>([], s[..k + 3]);
      assert [] + [s[..k + 3]] == [s[..k + 3]] && [s[..k + 3]] + [s[k + 3..]] == chunks;
      assert Concat(chunks) == s by { NoChunks(); }
    }
  }

  lemma NoChunks()
    ensures Concat<byte>([]) == []
  {}
}
