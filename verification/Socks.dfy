/** SOCKS4, SOCKS4a and SOCKS5 negotiation (src/core/socks.ts; RFC 1928 and RFC 1929): the awaited reads
    of the negotiation as the states of a machine that is fed chunks. */
module Socks {
  import opened Prelude
  import opened Text
  import opened Numbers

  datatype Target = Target(host: string, port: nat)

  /** Configured user name and password, if any; UTF-8 decoding is the platform's. */
  datatype Setup = Setup(auth: Option<(string, string)>, utf8: seq<byte> -> string)

  /** The read that the negotiation is waiting for, with what it remembers. */
  datatype Pc =
    | Version
    | MethodCount | Methods(n: byte)
    | AuthVersion | UserLength | UserName(n: byte) | PassLength(user: seq<byte>) | Password(user: seq<byte>, n: byte)
    | Head5 | Ipv4 | NameLength | Name(n: byte) | Ipv6 | Port(host: string)
    | Head4 | UserId(head: seq<byte>) | HostName(head: seq<byte>, sofar: seq<byte>)
    | Finished(result: Option<Target>)

  function Need(pc: Pc): nat {
    match pc
    case Methods(n) => Value(n)
    case UserName(n) => Value(n)
    case Password(_, n) => Value(n)
    case Head5 => 4
    case Ipv4 => 4
    case Name(n) => Value(n)
    case Ipv6 => 16
    case Port(_) => 2
    case Head4 => 7
    case Finished(_) => 0
    case _ => 1
  }

  // ---- text of addresses ----

  function Uint16(hi: byte, lo: byte): nat {
    Value(hi) * 256 + Value(lo)
  }

  function Quads(a: seq<byte>): (r: seq<nat>)
    ensures |r| == |a|
  {
    seq(|a|, i requires 0 <= i < |a| => Value(a[i]))
  }

  /** An IPv4 address as text. */
  function DottedQuad(a: seq<byte>): string
    requires |a| == 4
  {
    Join(Written(Quads(a), 10), ".")
  }

  function Groups(a: seq<byte>): (r: seq<nat>)
    ensures |r| == |a| / 2
  {
    seq(|a| / 2, i requires 0 <= i < |a| / 2 => Uint16(a[2 * i], a[2 * i + 1]))
  }

  /** An IPv6 address as text: all eight groups, none of them shortened away. */
  function HexGroups(a: seq<byte>): string {
    Join(Written(Groups(a), 16), ":")
  }

  /** The host text of an IPv4 address splits into four decimal numbers, which are its bytes in order. */
  lemma DottedQuadReads(a: seq<byte>)
    requires |a| == 4
    ensures var pieces := Split(DottedQuad(a), ".");
            |pieces| == 4 && forall i | 0 <= i < 4 :: ReadBase(pieces[i], 10) == Value(a[i])
  {
    hide Split, Join, ReadBase, Written, Value;
    SplitNumbers(Quads(a), 10, '.');
  }

  /** The host text of an IPv6 address splits into eight hexadecimal numbers, which are its groups in order. */
  lemma HexGroupsReads(a: seq<byte>)
    requires |a| == 16
    ensures var pieces := Split(HexGroups(a), ":");
            |pieces| == 8 && forall i | 0 <= i < 8 :: ReadBase(pieces[i], 16) == Uint16(a[2 * i], a[2 * i + 1])
  {
    hide Split, Join, ReadBase, Written, Uint16;
    SplitNumbers(Groups(a), 16, ':');
  }

  // ---- replies ----

  const NO_AUTH: seq<byte> := [0x05, 0x00]
  const USE_PASSWORD: seq<byte> := [0x05, 0x02]
  const NO_METHOD: seq<byte> := [0x05, 0xff]
  const LOGIN_OK: seq<byte> := [0x01, 0x00]
  const LOGIN_BAD: seq<byte> := [0x01, 0x01]
  const UNSUPPORTED5: seq<byte> := [0x05, 0x07, 0x00, 0x01, 0, 0, 0, 0, 0, 0]
  const GRANTED5: seq<byte> := [0x05, 0x00, 0x00, 0x01, 0, 0, 0, 0, 0, 0]
  const REJECTED4: seq<byte> := [0x00, 0x5b, 0, 0, 0, 0, 0, 0]
  const GRANTED4: seq<byte> := [0x00, 0x5a, 0, 0, 0, 0, 0, 0]

  // ---- one answered read ----

  datatype Step = Step(pc: Pc, reply: seq<byte>)

  function Quit(): Step {
    Step(Finished(None), [])
  }

  /** 0.0.0.x with x not zero announces a host name. */
  predicate Is4a(head: seq<byte>)
    requires |head| == 7
  {
    head[3] == 0 && head[4] == 0 && head[5] == 0 && head[6] != 0
  }

  function Grant4(head: seq<byte>, host: string): Step
    requires |head| == 7
  {
    if head[0] != 0x01 then Step(Finished(None), REJECTED4)
    else Step(Finished(Some(Target(host, Uint16(head[1], head[2])))), GRANTED4)
  }

  function AfterUserId(head: seq<byte>): Step
    requires |head| == 7
  {
    if Is4a(head) then Step(HostName(head, []), []) else Grant4(head, DottedQuad(head[3..]))
  }

  predicate ValidPc(pc: Pc) {
    (pc.UserId? ==> |pc.head| == 7) && (pc.HostName? ==> |pc.head| == 7)
  }

  function Resume(c: Setup, pc: Pc, b: seq<byte>): (r: Step)
    requires ValidPc(pc) && !pc.Finished? && |b| == Need(pc)
    ensures ValidPc(r.pc)
  {
    match pc
    case Version =>
      Step(if b[0] == 0x05 then MethodCount else if b[0] == 0x04 then Head4 else Finished(None), [])
    case MethodCount => Step(Methods(b[0]), [])
    case Methods(_) =>
      if c.auth.None? then Step(Head5, NO_AUTH)
      else if 0x02 !in b then Step(Finished(None), NO_METHOD)
      else Step(AuthVersion, USE_PASSWORD)
    case AuthVersion => if b[0] != 0x01 then Quit() else Step(UserLength, [])
    case UserLength => Step(UserName(b[0]), [])
    case UserName(_) => Step(PassLength(b), [])
    case PassLength(user) => Step(Password(user, b[0]), [])
    case Password(user, _) =>
      if c.auth.None? || c.utf8(user) != c.auth.value.0 || c.utf8(b) != c.auth.value.1
      then Step(Finished(None), LOGIN_BAD)
      else Step(Head5, LOGIN_OK)
    case Head5 =>
      if b[1] != 0x01 then Step(Finished(None), UNSUPPORTED5)
      else if b[3] == 0x01 then Step(Ipv4, [])
      else if b[3] == 0x03 then Step(NameLength, [])
      else if b[3] == 0x04 then Step(Ipv6, [])
      else Quit()
    case Ipv4 => Step(Port(DottedQuad(b)), [])
    case NameLength => Step(Name(b[0]), [])
    case Name(_) => Step(Port(c.utf8(b)), [])
    case Ipv6 => Step(Port(HexGroups(b)), [])
    case Port(host) => Step(Finished(Some(Target(host, Uint16(b[0], b[1])))), GRANTED5)
    case Head4 => Step(UserId(b), [])
    case UserId(head) => if b[0] == 0 then AfterUserId(head) else Step(pc, [])
    case HostName(head, sofar) =>
      if b[0] == 0 then Grant4(head, c.utf8(sofar)) else Step(HostName(head, sofar + b), [])
  }

  /** A read answered with null: the connection has ended. SOCKS4 goes on with what it has. */
  function ResumeNull(pc: Pc): (r: Step)
    requires ValidPc(pc)
    ensures ValidPc(r.pc)
  {
    match pc
    case UserId(head) => AfterUserId(head)
    case HostName(head, _) => Grant4(head, DottedQuad(head[3..]))
    case Finished(_) => Step(pc, [])
    case _ => Quit()
  }

  // ---- running on a buffer ----

  /** The negotiation and its socket: bytes not consumed, replies written, and, once the reader has let go
      of the socket, the bytes that arrive for the next owner. */
  datatype Machine = Machine(pc: Pc, buf: seq<byte>, written: seq<byte>, later: seq<byte>)

  /** Reads that may ask for no bytes at all come in this order. */
  function Rank(pc: Pc): nat {
    match pc
    case Methods(_) => 9
    case UserName(_) => 8
    case PassLength(_) => 7
    case Password(_, _) => 6
    case Head5 => 5
    case AuthVersion => 8
    case Name(_) => 4
    case Port(_) => 3
    case UserId(_) => 3
    case HostName(_, _) => 2
    case Finished(_) => 0
    case _ => 1
  }

  function Pump(c: Setup, m: Machine): (r: Machine)
    requires ValidPc(m.pc)
    ensures ValidPc(r.pc)
    decreases |m.buf|, Rank(m.pc)
  {
    if m.pc.Finished? || |m.buf| < Need(m.pc) then m
    else
      var n := Need(m.pc);
      var s := Resume(c, m.pc, m.buf[..n]);
      Pump(c, m.(pc := s.pc, buf := m.buf[n..], written := m.written + s.reply))
  }

  function Feed(c: Setup, m: Machine, chunk: seq<byte>): (r: Machine)
    requires ValidPc(m.pc)
    ensures ValidPc(r.pc)
  {
    if m.pc.Finished? then m.(later := m.later + chunk) else Pump(c, m.(buf := m.buf + chunk))
  }

  function FeedAll(c: Setup, m: Machine, chunks: seq<seq<byte>>): (r: Machine)
    requires ValidPc(m.pc)
    ensures ValidPc(r.pc)
    decreases |chunks|
  {
    if chunks == [] then m else FeedAll(c, Feed(c, m, chunks[0]), chunks[1..])
  }

  /** The end of the stream answers every read from now on with null. */
  function EndStream(pc: Pc, written: seq<byte>): (r: (Pc, seq<byte>))
    requires ValidPc(pc)
    decreases Rank(pc)
  {
    if pc.Finished? then (pc, written)
    else
      var s := ResumeNull(pc);
      EndStream(s.pc, written + s.reply)
  }

  // ---- the replies of every run ----

  function Greeting(c: Setup): seq<byte> {
    if c.auth.Some? then USE_PASSWORD + LOGIN_OK else NO_AUTH
  }

  /** The replies that belong to a position: nothing is written before its turn, a target is returned
      exactly when the last reply grants it, and each way of giving up has its own reply. */
  predicate Transcript(c: Setup, pc: Pc, written: seq<byte>) {
    match pc
    case Finished(Some(_)) => written == Greeting(c) + GRANTED5 || written == GRANTED4
    case Finished(None) =>
      written in [[], Greeting(c), Greeting(c) + UNSUPPORTED5, REJECTED4] ||
      (c.auth.Some? && written in [NO_METHOD, USE_PASSWORD, USE_PASSWORD + LOGIN_BAD])
    case AuthVersion => c.auth.Some? && written == USE_PASSWORD
    case UserLength => c.auth.Some? && written == USE_PASSWORD
    case UserName(_) => c.auth.Some? && written == USE_PASSWORD
    case PassLength(_) => c.auth.Some? && written == USE_PASSWORD
    case Password(_, _) => c.auth.Some? && written == USE_PASSWORD
    case Head5 => written == Greeting(c)
    case Ipv4 => written == Greeting(c)
    case NameLength => written == Greeting(c)
    case Name(_) => written == Greeting(c)
    case Ipv6 => written == Greeting(c)
    case Port(_) => written == Greeting(c)
    case _ => written == []
  }

  lemma NoReply()
    ensures forall s: seq<byte> :: s + [] == s
    ensures forall s: seq<byte> :: [] + s == s
  {}

  lemma ResumeTranscript(c: Setup, pc: Pc, b: seq<byte>, written: seq<byte>)
    requires ValidPc(pc) && !pc.Finished? && |b| == Need(pc) && Transcript(c, pc, written)
    ensures var s := Resume(c, pc, b); Transcript(c, s.pc, written + s.reply)
  {
    hide DottedQuad, HexGroups, Uint16;
    NoReply();
  }

  lemma NullTranscript(c: Setup, pc: Pc, written: seq<byte>)
    requires ValidPc(pc) && Transcript(c, pc, written)
    ensures var s := ResumeNull(pc); Transcript(c, s.pc, written + s.reply)
  {
    hide DottedQuad, Uint16;
    NoReply();
  }

  lemma {:induction false} PumpTranscript(c: Setup, m: Machine)
    requires ValidPc(m.pc) && Transcript(c, m.pc, m.written)
    ensures Transcript(c, Pump(c, m).pc, Pump(c, m).written)
    decreases |m.buf|, Rank(m.pc)
  {
    hide Resume, Transcript;
    if !m.pc.Finished? && |m.buf| >= Need(m.pc) {
      var n := Need(m.pc);
      var s := Resume(c, m.pc, m.buf[..n]);
      PumpStep(c, m);
      ResumeTranscript(c, m.pc, m.buf[..n], m.written);
      PumpTranscript(c, m.(pc := s.pc, buf := m.buf[n..], written := m.written + s.reply));
    }
  }

  lemma {:induction false} EndTranscript(c: Setup, pc: Pc, written: seq<byte>)
    requires ValidPc(pc) && Transcript(c, pc, written)
    ensures var r := EndStream(pc, written); Transcript(c, r.0, r.1) && r.0.Finished?
    decreases Rank(pc)
  {
    hide ResumeNull, Transcript;
    if !pc.Finished? {
      var s := ResumeNull(pc);
      NullStep(pc);
      NullTranscript(c, pc, written);
      EndTranscript(c, s.pc, written + s.reply);
    }
  }

  /** Over every run, on any bytes at all and with the connection ending at any point: the replies written
      are those that belong to the position reached. */
  lemma {:induction false} RunTranscript(c: Setup, m: Machine, chunks: seq<seq<byte>>)
    requires ValidPc(m.pc) && Transcript(c, m.pc, m.written)
    ensures var r := FeedAll(c, m, chunks);
            var e := EndStream(r.pc, r.written);
            Transcript(c, r.pc, r.written) && Transcript(c, e.0, e.1) && e.0.Finished?
    decreases |chunks|
  {
    hide Pump, Transcript, EndStream;
    if chunks == [] {
      EndTranscript(c, m.pc, m.written);
    } else {
      if !m.pc.Finished? {
        PumpTranscript(c, m.(buf := m.buf + chunks[0]));
      }
      RunTranscript(c, Feed(c, m, chunks[0]), chunks[1..]);
    }
  }

  const BEGIN: Machine := Machine(Version, [], [], [])

  /** The object that negotiates: the loop of the reader together with the continuation that each
      answered read wakes up. */
  class Negotiation {
    var pc: Pc
    var buf: seq<byte>
    var written: seq<byte>
    var later: seq<byte>
    const setup: Setup

    constructor (setup: Setup)
      ensures Valid() && Snapshot() == BEGIN && this.setup == setup
    {
      this.setup := setup;
      pc, buf, written, later := Version, [], [], [];
    }

    ghost predicate Valid()
      reads this
    {
      ValidPc(pc)
    }

    function Snapshot(): Machine
      reads this
    {
      Machine(pc, buf, written, later)
    }

    method OnData(chunk: seq<byte>)
      requires Valid()
      modifies this
      ensures Valid() && Snapshot() == Feed(setup, old(Snapshot()), chunk)
    {
      hide Resume;
      if pc.Finished? {
        later := later + chunk;
        return;
      }
      buf := buf + chunk;
      while !pc.Finished? && |buf| >= Need(pc)
        invariant Valid()
        invariant Pump(setup, Snapshot()) == Feed(setup, old(Snapshot()), chunk)
        decreases |buf|, Rank(pc)
      {
        var step := Resume(setup, pc, buf[..Need(pc)]);
        PumpStep(setup, Snapshot());
        buf := buf[Need(pc)..];
        written := written + step.reply;
        pc := step.pc;
      }
    }

    method OnEnd()
      requires Valid()
      modifies this`pc, this`written
      ensures Valid() && (pc, written) == EndStream(old(pc), old(written))
    {
      hide ResumeNull;
      while !pc.Finished?
        invariant Valid()
        invariant EndStream(pc, written) == EndStream(old(pc), old(written))
        decreases Rank(pc)
      {
        var step := ResumeNull(pc);
        NullStep(pc);
        written := written + step.reply;
        pc := step.pc;
      }
    }
  }

  /** A read that consumes nothing leads on to a later read. */
  lemma PumpStep(c: Setup, m: Machine)
    requires ValidPc(m.pc) && !m.pc.Finished? && |m.buf| >= Need(m.pc)
    ensures Need(m.pc) == 0 ==> Rank(Resume(c, m.pc, m.buf[..Need(m.pc)]).pc) < Rank(m.pc)
  {}

  lemma NullStep(pc: Pc)
    requires ValidPc(pc) && !pc.Finished?
    ensures Rank(ResumeNull(pc).pc) < Rank(pc)
  {}

  // ---- chunk independence ----

  /** Whatever arrives later is either pumped on from where the negotiation stands, or left over. */
  lemma {:induction false} PumpChunks(c: Setup, m: Machine, more: seq<byte>)
    requires ValidPc(m.pc) && !m.pc.Finished?
    ensures var p := Pump(c, m);
            var all := Pump(c, m.(buf := m.buf + more));
            all == if p.pc.Finished? then p.(buf := p.buf + more) else Pump(c, p.(buf := p.buf + more))
    decreases |m.buf|, Rank(m.pc)
  {
    hide Resume;
    if |m.buf| >= Need(m.pc) {
      var n := Need(m.pc);
      var s := Resume(c, m.pc, m.buf[..n]);
      var next := m.(pc := s.pc, buf := m.buf[n..], written := m.written + s.reply);
      PumpStep(c, m);
      assert (m.buf + more)[..n] == m.buf[..n];
      assert (m.buf + more)[n..] == m.buf[n..] + more;
      if !s.pc.Finished? {
        PumpChunks(c, next, more);
      }
    }
  }

  /** What the client and the next owner of the socket see: the position, the replies, and the bytes that
      the negotiation has not consumed. */
  function Outcome(m: Machine): (Pc, seq<byte>, seq<byte>) {
    (m.pc, m.written, m.buf + m.later)
  }

  ghost predicate Resting(m: Machine) {
    ValidPc(m.pc) && (m.pc.Finished? || (|m.buf| < Need(m.pc) && m.later == []))
  }

  lemma {:induction false} PumpRests(c: Setup, m: Machine)
    requires ValidPc(m.pc) && m.later == []
    ensures Resting(Pump(c, m)) && Pump(c, m).later == []
    decreases |m.buf|, Rank(m.pc)
  {
    hide Resume;
    if !m.pc.Finished? && |m.buf| >= Need(m.pc) {
      var n := Need(m.pc);
      var s := Resume(c, m.pc, m.buf[..n]);
      PumpStep(c, m);
      PumpRests(c, m.(pc := s.pc, buf := m.buf[n..], written := m.written + s.reply));
    }
  }

  /** Any two chunkings of the same bytes have the same outcome. */
  lemma {:induction false} ChunkingIsInvisible(c: Setup, m: Machine, chunks: seq<seq<byte>>)
    requires Resting(m)
    ensures Outcome(FeedAll(c, m, chunks)) == Outcome(Feed(c, m, Concat(chunks)))
    decreases |chunks|
  {
    hide Pump;
    if chunks == [] {
      PumpOfResting(c, m);
      assert m.buf + [] == m.buf && m.later + [] == m.later;
    } else {
      var x, y := chunks[0], Concat(chunks[1..]);
      var f := Feed(c, m, x);
      FeedTwice(c, m, x, y);
      ChunkingIsInvisible(c, f, chunks[1..]);
    }
  }

  lemma PumpOfResting(c: Setup, m: Machine)
    requires Resting(m)
    ensures Pump(c, m) == m
  {}

  lemma FeedTwice(c: Setup, m: Machine, x: seq<byte>, y: seq<byte>)
    requires Resting(m)
    ensures Resting(Feed(c, m, x))
    ensures Outcome(Feed(c, Feed(c, m, x), y)) == Outcome(Feed(c, m, x + y))
  {
    hide Pump;
    if m.pc.Finished? {
      assert m.later + x + y == m.later + (x + y);
    } else {
      var mx := m.(buf := m.buf + x);
      PumpRests(c, mx);
      PumpChunks(c, mx, y);
      assert m.buf + x + y == m.buf + (x + y);
      var p := Pump(c, mx);
      assert p.buf + y + [] == p.buf + ([] + y);
    }
  }

  // ---- nothing lost ----

  /** The bytes not consumed are always a tail of the bytes received: none lost, repeated or reordered. */
  lemma {:induction false} PumpKeepsTail(c: Setup, m: Machine) returns (k: nat)
    requires ValidPc(m.pc)
    ensures k <= |m.buf| && Pump(c, m).buf == m.buf[k..]
    decreases |m.buf|, Rank(m.pc)
  {
    hide Resume;
    if m.pc.Finished? || |m.buf| < Need(m.pc) {
      k := 0;
    } else {
      var n := Need(m.pc);
      var s := Resume(c, m.pc, m.buf[..n]);
      PumpStep(c, m);
      k := PumpKeepsTail(c, m.(pc := s.pc, buf := m.buf[n..], written := m.written + s.reply));
      k := n + k;
    }
  }

  lemma NothingLost(c: Setup, chunks: seq<seq<byte>>) returns (k: nat)
    ensures var m := FeedAll(c, BEGIN, chunks);
            k <= |Concat(chunks)| && m.buf + m.later == Concat(chunks)[k..]
  {
    hide FeedAll, Pump;
    ChunkingIsInvisible(c, BEGIN, chunks);
    var all := Concat(chunks);
    assert [] + all == all;
    PumpRests(c, BEGIN.(buf := all));
    k := PumpKeepsTail(c, BEGIN.(buf := all));
    var rest := Pump(c, BEGIN.(buf := all)).buf;
    assert rest + [] == rest;
  }

  // ---- requests ----

  datatype Address = V4(a: seq<byte>) | Domain(name: seq<byte>) | V6(groups: seq<byte>)

  datatype Request =
    | Connect5(methods: seq<byte>, login: Option<(seq<byte>, seq<byte>)>, version: byte, reserved: byte,
               address: Address, port: nat)
    | Connect4(ip: seq<byte>, userId: seq<byte>, port: nat)
    | Connect4a(x: byte, userId: seq<byte>, name: seq<byte>, port: nat)

  predicate ShortField(s: seq<byte>) {
    |s| < 256
  }

  predicate ValidAddress(a: Address) {
    match a
    case V4(b) => |b| == 4
    case Domain(name) => ShortField(name)
    case V6(b) => |b| == 16
  }

  /** A well-formed CONNECT request; with a login configured, one that offers and passes it. */
  predicate ValidRequest(c: Setup, r: Request) {
    r.port < 0x1_0000 &&
    match r
    case Connect5(methods, login, _, _, address, _) =>
      ShortField(methods) && ValidAddress(address) &&
      (match c.auth
       case None => login.None?
       case Some(auth) => 0x02 in methods && login.Some? && ShortField(login.value.0) && ShortField(login.value.1) &&
                          c.utf8(login.value.0) == auth.0 && c.utf8(login.value.1) == auth.1)
    case Connect4(ip, userId, _) =>
      |ip| == 4 && !(ip[0] == 0 && ip[1] == 0 && ip[2] == 0 && ip[3] != 0) && 0 !in userId
    case Connect4a(x, userId, name, _) => x != 0 && 0 !in userId && 0 !in name
  }

  function PortBytes(port: nat): (r: seq<byte>)
    ensures |r| == 2
  {
    [ToByte(port / 256), ToByte(port)]
  }

  function Counted(s: seq<byte>): seq<byte> {
    [ToByte(|s|)] + s
  }

  function AddressType(a: Address): byte {
    match a case V4(_) => 0x01 case Domain(_) => 0x03 case V6(_) => 0x04
  }

  function AddressBytes(a: Address): seq<byte> {
    match a case V4(b) => b case Domain(name) => Counted(name) case V6(b) => b
  }

  function LoginBytes(login: Option<(seq<byte>, seq<byte>)>): seq<byte> {
    match login
    case None => []
    case Some(l) => [0x01] + Counted(l.0) + Counted(l.1)
  }

  /** Sections 3 to 5 of RFC 1928, section 2 of RFC 1929, and the SOCKS4 and SOCKS4a memos. */
  function Encode(r: Request): seq<byte> {
    match r
    case Connect5(methods, login, version, reserved, address, port) =>
      [0x05] + Counted(methods) + LoginBytes(login)
      + [version, 0x01, reserved, AddressType(address)] + AddressBytes(address) + PortBytes(port)
    case Connect4(ip, userId, port) => [0x04, 0x01] + PortBytes(port) + ip + userId + [0]
    case Connect4a(x, userId, name, port) =>
      [0x04, 0x01] + PortBytes(port) + [0, 0, 0, x] + userId + [0] + name + [0]
  }

  function HostOf(c: Setup, a: Address): string
    requires ValidAddress(a)
  {
    match a case V4(b) => DottedQuad(b) case Domain(name) => c.utf8(name) case V6(b) => HexGroups(b)
  }

  function TargetOf(c: Setup, r: Request): Target
    requires ValidRequest(c, r)
  {
    match r
    case Connect5(_, _, _, _, address, port) => Target(HostOf(c, address), port)
    case Connect4(ip, _, port) => Target(DottedQuad(ip), port)
    case Connect4a(_, _, name, port) => Target(c.utf8(name), port)
  }

  function Replies(c: Setup, r: Request): seq<byte> {
    match r
    case Connect5(_, _, _, _, _, _) => (if c.auth.Some? then USE_PASSWORD + LOGIN_OK else NO_AUTH) + GRANTED5
    case _ => GRANTED4
  }

  // ---- the handshake, read by read ----

  function Run(c: Setup, pc: Pc, bytes: seq<byte>, written: seq<byte>): Machine
    requires ValidPc(pc)
  {
    Pump(c, Machine(pc, bytes, written, []))
  }

  lemma Take(c: Setup, pc: Pc, b: seq<byte>, rest: seq<byte>, written: seq<byte>)
    requires ValidPc(pc) && !pc.Finished? && |b| == Need(pc)
    ensures var s := Resume(c, pc, b);
            Run(c, pc, b + rest, written) == Run(c, s.pc, rest, written + s.reply)
  {
    hide Resume;
    assert (b + rest)[..|b|] == b && (b + rest)[|b|..] == rest;
  }

  lemma PortValue(port: nat)
    requires port < 0x1_0000
    ensures Uint16(PortBytes(port)[0], PortBytes(port)[1]) == port
  {
    hide ToByte, Value;
    ToByteValue(port / 256);
    ToByteValue(port);
  }

  /** A length byte and the field it announces, read one after the other. */
  lemma TakeCounted(c: Setup, pc: Pc, field: seq<byte>, rest: seq<byte>, written: seq<byte>)
    requires ShortField(field) && ValidPc(pc) && !pc.Finished? && Need(pc) == 1
    requires var s := Resume(c, pc, [ToByte(|field|)]);
             s.reply == [] && !s.pc.Finished? && Need(s.pc) == |field|
    ensures var mid := Resume(c, pc, [ToByte(|field|)]).pc;
            var s := Resume(c, mid, field);
            Run(c, pc, Counted(field) + rest, written) == Run(c, s.pc, rest, written + s.reply)
  {
    hide Resume, Need, Run;
    var mid := Resume(c, pc, [ToByte(|field|)]).pc;
    Take(c, pc, [ToByte(|field|)], field + rest, written);
    assert Counted(field) + rest == [ToByte(|field|)] + (field + rest);
    assert written + [] == written;
    Take(c, mid, field, rest, written);
  }

  lemma LoginStage(c: Setup, login: (seq<byte>, seq<byte>), rest: seq<byte>, written: seq<byte>)
    requires c.auth.Some? && ShortField(login.0) && ShortField(login.1)
    requires c.utf8(login.0) == c.auth.value.0 && c.utf8(login.1) == c.auth.value.1
    ensures Run(c, AuthVersion, LoginBytes(Some(login)) + rest, written) == Run(c, Head5, rest, written + LOGIN_OK)
  {
    hide Run, Counted, ToByte, Value;
    ToByteValue(|login.0|);
    ToByteValue(|login.1|);
    var tail := Counted(login.1) + rest;
    Take(c, AuthVersion, [0x01], Counted(login.0) + tail, written);
    assert LoginBytes(Some(login)) + rest == [0x01] + (Counted(login.0) + tail);
    assert written + [] == written;
    TakeCounted(c, UserLength, login.0, tail, written);
    TakeCounted(c, PassLength(login.0), login.1, rest, written);
  }

  lemma AddressStage(c: Setup, version: byte, reserved: byte, a: Address, rest: seq<byte>, written: seq<byte>)
    requires ValidAddress(a)
    ensures Run(c, Head5, [version, 0x01, reserved, AddressType(a)] + AddressBytes(a) + rest, written)
            == Run(c, Port(HostOf(c, a)), rest, written)
  {
    hide Run, Counted, ToByte, Value, DottedQuad, HexGroups;
    var head := [version, 0x01, reserved, AddressType(a)];
    Take(c, Head5, head, AddressBytes(a) + rest, written);
    assert head + AddressBytes(a) + rest == head + (AddressBytes(a) + rest);
    assert written + [] == written;
    match a
    case V4(b) => Take(c, Ipv4, b, rest, written);
    case Domain(name) =>
      ToByteValue(|name|);
      TakeCounted(c, NameLength, name, rest, written);
    case V6(b) => Take(c, Ipv6, b, rest, written);
  }

  lemma PortStage(c: Setup, host: string, port: nat, rest: seq<byte>, written: seq<byte>)
    requires port < 0x1_0000
    ensures Run(c, Port(host), PortBytes(port) + rest, written)
            == Machine(Finished(Some(Target(host, port))), rest, written + GRANTED5, [])
  {
    hide ToByte, Value;
    Take(c, Port(host), PortBytes(port), rest, written);
    PortValue(port);
  }

  lemma MethodStage(c: Setup, methods: seq<byte>, rest: seq<byte>)
    requires ShortField(methods)
    ensures Run(c, Version, [0x05] + Counted(methods) + rest, [])
            == if c.auth.None? then Run(c, Head5, rest, NO_AUTH)
               else if 0x02 in methods then Run(c, AuthVersion, rest, USE_PASSWORD)
               else Run(c, Finished(None), rest, NO_METHOD)
  {
    hide Run, Counted, ToByte, Value;
    NoReply();
    Take(c, Version, [0x05], Counted(methods) + rest, []);
    assert [0x05] + Counted(methods) + rest == [0x05] + (Counted(methods) + rest);
    ToByteValue(|methods|);
    TakeCounted(c, MethodCount, methods, rest, []);
    assert [] + USE_PASSWORD == USE_PASSWORD && [] + NO_AUTH == NO_AUTH && [] + NO_METHOD == NO_METHOD;
  }

  lemma Handshake5(c: Setup, r: Request, payload: seq<byte>)
    requires r.Connect5? && ValidRequest(c, r)
    ensures Run(c, Version, Encode(r) + payload, [])
            == Machine(Finished(Some(TargetOf(c, r))), payload, Replies(c, r), [])
  {
    hide Run, Counted, AddressBytes, LoginBytes, PortBytes, ValidAddress, HostOf;
    var tail := PortBytes(r.port) + payload;
    var head := [r.version, 0x01, r.reserved, AddressType(r.address)] + AddressBytes(r.address) + tail;
    MethodStage(c, r.methods, LoginBytes(r.login) + head);
    assert Encode(r) + payload == [0x05] + Counted(r.methods) + (LoginBytes(r.login) + head);
    var written;
    if c.auth.Some? {
      LoginStage(c, r.login.value, head, USE_PASSWORD);
      written := USE_PASSWORD + LOGIN_OK;
    } else {
      assert LoginBytes(r.login) + head == head by { NoLogin(); }
      written := NO_AUTH;
    }
    AddressStage(c, r.version, r.reserved, r.address, tail, written);
    PortStage(c, HostOf(c, r.address), r.port, payload, written);
  }

  lemma NoLogin()
    ensures LoginBytes(None) == []
  {}

  /** Reading up to the zero byte that ends a SOCKS4 string. */
  lemma {:induction false} TakeUserId(c: Setup, head: seq<byte>, userId: seq<byte>, rest: seq<byte>)
    requires |head| == 7 && 0 !in userId
    ensures var s := AfterUserId(head);
            Run(c, UserId(head), userId + [0] + rest, []) == Run(c, s.pc, rest, s.reply)
    decreases |userId|
  {
    hide Run, AfterUserId;
    NoReply();
    if userId == [] {
      Take(c, UserId(head), [0], rest, []);
      assert userId + [0] + rest == [0] + rest;
      assert [] + AfterUserId(head).reply == AfterUserId(head).reply;
    } else {
      assert userId[0] in userId;
      Take(c, UserId(head), userId[..1], userId[1..] + [0] + rest, []);
      assert userId + [0] + rest == userId[..1] + (userId[1..] + [0] + rest);
      TakeUserId(c, head, userId[1..], rest);
    }
  }

  lemma {:induction false} TakeHostName(c: Setup, head: seq<byte>, sofar: seq<byte>, name: seq<byte>, rest: seq<byte>)
    requires |head| == 7 && 0 !in name
    ensures var s := Grant4(head, c.utf8(sofar + name));
            Run(c, HostName(head, sofar), name + [0] + rest, []) == Run(c, s.pc, rest, s.reply)
    decreases |name|
  {
    hide Run, Grant4;
    NoReply();
    if name == [] {
      Take(c, HostName(head, sofar), [0], rest, []);
      assert name + [0] + rest == [0] + rest && sofar + name == sofar;
      var s := Grant4(head, c.utf8(sofar));
      assert [] + s.reply == s.reply;
    } else {
      assert name[0] in name;
      Take(c, HostName(head, sofar), name[..1], name[1..] + [0] + rest, []);
      assert name + [0] + rest == name[..1] + (name[1..] + [0] + rest);
      TakeHostName(c, head, sofar + name[..1], name[1..], rest);
      assert sofar + name[..1] + name[1..] == sofar + name;
    }
  }

  /** The fixed part of a SOCKS4 request. */
  lemma HeadStage4(c: Setup, port: nat, ip: seq<byte>, rest: seq<byte>)
    requires |ip| == 4
    ensures Run(c, Version, [0x04, 0x01] + PortBytes(port) + ip + rest, [])
            == Run(c, UserId([0x01] + PortBytes(port) + ip), rest, [])
  {
    hide Run, ToByte, Value, PortBytes;
    NoReply();
    var head := [0x01] + PortBytes(port) + ip;
    assert [0x04, 0x01] + PortBytes(port) + ip + rest == [0x04] + (head + rest);
    Take(c, Version, [0x04], head + rest, []);
    Take(c, Head4, head, rest, []);
  }

  lemma Granted4(c: Setup, port: nat, ip: seq<byte>, host: string, rest: seq<byte>)
    requires |ip| == 4 && port < 0x1_0000
    ensures var s := Grant4([0x01] + PortBytes(port) + ip, host);
            Run(c, s.pc, rest, s.reply) == Machine(Finished(Some(Target(host, port))), rest, GRANTED4, [])
  {
    hide ToByte, Value;
    PortValue(port);
  }

  lemma Handshake4(c: Setup, r: Request, payload: seq<byte>)
    requires !r.Connect5? && ValidRequest(c, r)
    ensures Run(c, Version, Encode(r) + payload, [])
            == Machine(Finished(Some(TargetOf(c, r))), payload, Replies(c, r), [])
  {
    hide Run, PortBytes, DottedQuad, Grant4;
    match r
    case Connect4(ip, userId, port) =>
      var head := [0x01] + PortBytes(port) + ip;
      assert Encode(r) + payload == [0x04, 0x01] + PortBytes(port) + ip + (userId + [0] + payload);
      HeadStage4(c, port, ip, userId + [0] + payload);
      TakeUserId(c, head, userId, payload);
      assert head[3..] == ip;
      Granted4(c, port, ip, DottedQuad(ip), payload);
    case Connect4a(x, userId, name, port) =>
      var ip := [0, 0, 0, x];
      var head := [0x01] + PortBytes(port) + ip;
      assert Encode(r) + payload
          == [0x04, 0x01] + PortBytes(port) + ip + (userId + [0] + (name + [0] + payload));
      HeadStage4(c, port, ip, userId + [0] + (name + [0] + payload));
      TakeUserId(c, head, userId, name + [0] + payload);
      TakeHostName(c, head, [], name, payload);
      assert [] + name == name;
      Granted4(c, port, ip, c.utf8(name), payload);
  }

  /** The handshake theorem: every well-formed CONNECT request followed by any payload, cut into chunks in
      any way, yields the encoded host and port, the prescribed replies, and the payload untouched. */
  lemma HandshakeRoundTrip(c: Setup, r: Request, payload: seq<byte>, chunks: seq<seq<byte>>)
    requires ValidRequest(c, r) && Concat(chunks) == Encode(r) + payload
    ensures var m := FeedAll(c, BEGIN, chunks);
            m.pc == Finished(Some(TargetOf(c, r))) && m.written == Replies(c, r) && m.buf + m.later == payload
  {
    hide FeedAll, Pump, Encode, Replies, TargetOf, ValidRequest;
    ChunkingIsInvisible(c, BEGIN, chunks);
    var all := Concat(chunks);
    assert [] + all == all;
    if r.Connect5? {
      Handshake5(c, r, payload);
    } else {
      Handshake4(c, r, payload);
    }
    assert Feed(c, BEGIN, all) == Run(c, Version, all, []);
    assert payload + [] == payload;
  }

  // ---- the method selected ----

  /** What has been written stays written. */
  lemma {:induction false} PumpWrites(c: Setup, m: Machine)
    requires ValidPc(m.pc)
    ensures m.written <= Pump(c, m).written
    decreases |m.buf|, Rank(m.pc)
  {
    hide Resume;
    if !m.pc.Finished? && |m.buf| >= Need(m.pc) {
      var n := Need(m.pc);
      var s := Resume(c, m.pc, m.buf[..n]);
      PumpStep(c, m);
      PumpWrites(c, m.(pc := s.pc, buf := m.buf[n..], written := m.written + s.reply));
    }
  }

  /** The answer to a greeting, whatever follows it and in whatever chunks. Section 3 of RFC 1928 asks for a method
      that was offered, or 0xff; the answer is one of these if and only if a login is configured or method 0 was
      offered. Without a login method 0 is selected all the same. */
  lemma SelectedIsOfferedIff(c: Setup, methods: seq<byte>, rest: seq<byte>, chunks: seq<seq<byte>>)
    requires ShortField(methods) && Concat(chunks) == [0x05] + Counted(methods) + rest
    ensures var w := FeedAll(c, BEGIN, chunks).written;
            |w| >= 2 && w[0] == 0x05 &&
            w[1] == (if c.auth.None? then 0x00 else if 0x02 in methods then 0x02 else 0xff) &&
            (w[1] in methods || w[1] == 0xff <==> c.auth.Some? || 0x00 in methods)
  {
    hide FeedAll, Pump, Counted;
    ChunkingIsInvisible(c, BEGIN, chunks);
    var all := Concat(chunks);
    assert [] + all == all;
    MethodStage(c, methods, rest);
    assert Feed(c, BEGIN, all) == Run(c, Version, all, []);
    var reply := if c.auth.None? then NO_AUTH else if 0x02 in methods then USE_PASSWORD else NO_METHOD;
    var pc := if c.auth.None? then Head5 else if 0x02 in methods then AuthVersion else Finished(None);
    PumpWrites(c, Machine(pc, rest, reply, []));
  }

  // ---- where the end of the stream grants a request ----

  /** Inside the strings of a SOCKS4 CONNECT the end of the stream grants the request, for the address of its fixed
      part, whatever the strings would have said; anywhere else it ends the negotiation without a target. */
  lemma EndGrantsIff(pc: Pc, written: seq<byte>)
    requires ValidPc(pc) && !pc.Finished?
    ensures var e := EndStream(pc, written);
            if (pc.UserId? || pc.HostName?) && pc.head[0] == 0x01
            then e == (Finished(Some(Target(DottedQuad(pc.head[3..]), Uint16(pc.head[1], pc.head[2])))),
                       written + GRANTED4)
            else e.0 == Finished(None)
  {
    hide DottedQuad, Uint16;
    NoReply();
    var s := ResumeNull(pc);
    if pc.UserId? && s.pc.HostName? {
      EndStep(s.pc, written);
    }
  }

  lemma EndStep(pc: Pc, written: seq<byte>)
    requires ValidPc(pc) && pc.HostName?
    ensures var s := Grant4(pc.head, DottedQuad(pc.head[3..]));
            EndStream(pc, written) == (s.pc, written + s.reply)
  {
    hide DottedQuad, Uint16;
    NoReply();
  }

  /** A position of a SOCKS4 negotiation past the fixed part "head". */
  predicate InStrings(pc: Pc, head: seq<byte>) {
    pc == UserId(head) || (pc.HostName? && pc.head == head) || pc.Finished?
  }

  predicate InFive(pc: Pc) {
    !pc.Version? && !pc.Head4? && !pc.UserId? && !pc.HostName?
  }

  lemma {:induction false} PumpInStrings(c: Setup, m: Machine, head: seq<byte>)
    requires |head| == 7 && ValidPc(m.pc) && InStrings(m.pc, head)
    ensures InStrings(Pump(c, m).pc, head)
    decreases |m.buf|, Rank(m.pc)
  {
    hide DottedQuad, Uint16, Is4a;
    if !m.pc.Finished? && |m.buf| >= Need(m.pc) {
      var n := Need(m.pc);
      var s := Resume(c, m.pc, m.buf[..n]);
      PumpStep(c, m);
      PumpInStrings(c, m.(pc := s.pc, buf := m.buf[n..], written := m.written + s.reply), head);
    }
  }

  lemma {:induction false} PumpInFive(c: Setup, m: Machine)
    requires ValidPc(m.pc) && InFive(m.pc)
    ensures InFive(Pump(c, m).pc)
    decreases |m.buf|, Rank(m.pc)
  {
    hide Resume;
    if !m.pc.Finished? && |m.buf| >= Need(m.pc) {
      var n := Need(m.pc);
      var s := Resume(c, m.pc, m.buf[..n]);
      PumpStep(c, m);
      FiveStays(c, m.pc, m.buf[..n]);
      PumpInFive(c, m.(pc := s.pc, buf := m.buf[n..], written := m.written + s.reply));
    }
  }

  lemma FiveStays(c: Setup, pc: Pc, b: seq<byte>)
    requires ValidPc(pc) && !pc.Finished? && |b| == Need(pc) && InFive(pc)
    ensures InFive(Resume(c, pc, b).pc)
  {
    hide DottedQuad, HexGroups, Uint16;
  }

  /** Where a negotiation that is not finished stands, by the bytes received: in the strings of SOCKS4 exactly when
      the version byte is 4 and the fixed part is complete. */
  lemma StandsIn(c: Setup, all: seq<byte>)
    ensures var p := Pump(c, BEGIN.(buf := all)).pc;
            !p.Finished? ==>
              if |all| >= 8 && all[0] == 0x04 then InStrings(p, all[1..8]) else !p.UserId? && !p.HostName?
  {
    hide Pump, Resume;
    if all == [] {
      assert Pump(c, BEGIN.(buf := all)) == BEGIN.(buf := all) by { PumpOfResting(c, BEGIN.(buf := all)); }
    } else {
      FirstByteRead(c, all);
      NoReply();
      var rest := all[1..];
      if all[0] == 0x05 {
        PumpInFive(c, Machine(MethodCount, rest, [], []));
      } else if all[0] == 0x04 {
        if |rest| < 7 {
          PumpOfResting(c, Machine(Head4, rest, [], []));
        } else {
          HeadRead(c, rest);
          PumpInStrings(c, Machine(UserId(rest[..7]), rest[7..], [], []), rest[..7]);
          assert rest[..7] == all[1..8];
        }
      } else {
        PumpOfResting(c, Machine(Finished(None), rest, [], []));
      }
    }
  }

  lemma FirstByteRead(c: Setup, all: seq<byte>)
    requires all != []
    ensures Pump(c, BEGIN.(buf := all))
            == Pump(c, Machine(if all[0] == 0x05 then MethodCount else if all[0] == 0x04 then Head4 else Finished(None),
                               all[1..], [], []))
  {
    hide DottedQuad, HexGroups, Uint16;
    NoReply();
    assert all[..1] == [all[0]];
  }

  lemma HeadRead(c: Setup, rest: seq<byte>)
    requires |rest| >= 7
    ensures Pump(c, Machine(Head4, rest, [], [])) == Pump(c, Machine(UserId(rest[..7]), rest[7..], [], []))
  {
    hide DottedQuad, HexGroups, Uint16;
    NoReply();
  }

  /** On any bytes in any chunks, with the connection ending before the negotiation is finished: a target is returned
      exactly when the bytes begin with the whole fixed part of a SOCKS4 CONNECT, and it is the address written
      there, which for SOCKS4a is not a host at all. */
  lemma TruncatedGrantIff(c: Setup, chunks: seq<seq<byte>>)
    requires !FeedAll(c, BEGIN, chunks).pc.Finished?
    ensures var m := FeedAll(c, BEGIN, chunks);
            var e := EndStream(m.pc, m.written);
            var all := Concat(chunks);
            if |all| >= 8 && all[0] == 0x04 && all[1] == 0x01
            then e == (Finished(Some(Target(DottedQuad(all[4..8]), Uint16(all[2], all[3])))), GRANTED4)
            else e.0 == Finished(None)
  {
    hide FeedAll, Pump, EndStream, DottedQuad, Uint16, Transcript, InStrings, Concat;
    var m := FeedAll(c, BEGIN, chunks);
    var all := Concat(chunks);
    ChunkingIsInvisible(c, BEGIN, chunks);
    assert [] + all == all;
    StandsIn(c, all);
    BeginsSilent(c);
    RunTranscript(c, BEGIN, chunks);
    EndGrantsIff(m.pc, m.written);
    if |all| >= 8 && all[0] == 0x04 {
      InStringsHead(m.pc, all[1..8]);
      StringsSilent(c, m.pc, m.written);
      assert all[1..8][3..] == all[4..8];
      assert [] + GRANTED4 == GRANTED4;
    }
  }

  lemma InStringsHead(pc: Pc, head: seq<byte>)
    requires InStrings(pc, head) && !pc.Finished?
    ensures (pc.UserId? || pc.HostName?) && pc.head == head
  {}

  lemma BeginsSilent(c: Setup)
    ensures Transcript(c, Version, [])
  {}

  lemma StringsSilent(c: Setup, pc: Pc, written: seq<byte>)
    requires Transcript(c, pc, written) && (pc.UserId? || pc.HostName?)
    ensures written == []
  {}

  const CUT_OFF: seq<byte> := [0x04, 0x01, 0x00, 0x50, 0, 0, 0, 1, 0, 0x61]

  lemma EmptyUserId(c: Setup, head: seq<byte>, rest: seq<byte>)
    requires |head| == 7 && Is4a(head)
    ensures Run(c, UserId(head), [0] + rest, []) == Run(c, HostName(head, []), rest, [])
  {
    hide Run, DottedQuad, Uint16;
    Take(c, UserId(head), [0], rest, []);
    assert Resume(c, UserId(head), [0]) == Step(HostName(head, []), []);
    NoReply();
  }

  lemma OneLetter(c: Setup, head: seq<byte>, letter: byte)
    requires |head| == 7 && letter != 0
    ensures Run(c, HostName(head, []), [letter], []) == Run(c, HostName(head, [letter]), [], [])
  {
    hide Run, DottedQuad, Uint16;
    Take(c, HostName(head, []), [letter], [], []);
    NoReply();
    assert Resume(c, HostName(head, []), [letter]) == Step(HostName(head, [letter]), []);
  }

  lemma CutOffStands(c: Setup, head: seq<byte>)
    requires head == [0x01, 0x00, 0x50, 0, 0, 0, 1]
    ensures Run(c, UserId(head), [0, 0x61], []) == Run(c, HostName(head, [0x61]), [], [])
  {
    hide Run;
    EmptyUserId(c, head, [0x61]);
    OneLetter(c, head, 0x61);
    assert [0] + [0x61 as byte] == [0, 0x61];
  }

  /** A SOCKS4a request for port 80 cut off inside the host name "a...": granted, for the host 0.0.0.1. */
  lemma TruncatedGrant(c: Setup)
    ensures var m := FeedAll(c, BEGIN, [CUT_OFF]);
            !m.pc.Finished? &&
            EndStream(m.pc, m.written)
            == (Finished(Some(Target(DottedQuad([0, 0, 0, 1]), Uint16(0x00, 0x50)))), GRANTED4)
  {
    hide DottedQuad, Uint16, Pump, EndStream, FeedAll;
    var chunks := [CUT_OFF];
    assert chunks[1..] == [] && [] + CUT_OFF == CUT_OFF;
    FirstByteRead(c, CUT_OFF);
    var rest := CUT_OFF[1..];
    HeadRead(c, rest);
    var head: seq<byte> := [0x01, 0x00, 0x50, 0, 0, 0, 1];
    assert rest[..7] == head && rest[7..] == [0, 0x61];
    CutOffStands(c, head);
    PumpOfResting(c, Machine(HostName(head, [0x61]), [], [], []));
    ChunkingIsInvisible(c, BEGIN, chunks);
    assert Concat(chunks) == CUT_OFF;
    TruncatedGrantIff(c, chunks);
    assert CUT_OFF[4..8] == [0, 0, 0, 1];
  }
}
