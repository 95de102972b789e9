/** What a SOCKS client must not get (src/core/socks.ts), and the replies byte by byte: logins that are wrong, commands
    other than CONNECT, and versions, methods and address types that are not known. */
module SocksRefusals {
  import opened Prelude
  import opened Text
  import opened Numbers
  import opened Socks

  // ---- requests and replies as bytes ----

  /** The replies to every kind of granted request. */
  lemma RepliesInBytes(c: Setup, r: Request)
    ensures r.Connect5? && c.auth.None? ==> Replies(c, r) == [5, 0] + [5, 0, 0, 1, 0, 0, 0, 0, 0, 0]
    ensures r.Connect5? && c.auth.Some? ==> Replies(c, r) == [5, 2, 1, 0] + [5, 0, 0, 1, 0, 0, 0, 0, 0, 0]
    ensures !r.Connect5? ==> Replies(c, r) == [0, 90, 0, 0, 0, 0, 0, 0]
  {}

  /** A greeting, the login if there is one, and a CONNECT: command 1, address types 1, 3 and 4, the port in two bytes
      most significant first. */
  lemma RequestInBytes(r: Request)
    ensures r.Connect5? ==>
              var port := [ToByte(r.port / 256), ToByte(r.port)];
              var greeting := [5, ToByte(|r.methods|)] + r.methods;
              var login := if r.login.None? then []
                           else [1, ToByte(|r.login.value.0|)] + r.login.value.0
                                + [ToByte(|r.login.value.1|)] + r.login.value.1;
              Encode(r)
              == greeting + login
                 + (match r.address
                    case V4(a) => [r.version, 1, r.reserved, 1] + a
                    case Domain(name) => [r.version, 1, r.reserved, 3, ToByte(|name|)] + name
                    case V6(a) => [r.version, 1, r.reserved, 4] + a)
                 + port
    ensures r.Connect4? ==>
              Encode(r) == [4, 1, ToByte(r.port / 256), ToByte(r.port)] + r.ip + r.userId + [0]
    ensures r.Connect4a? ==>
              Encode(r) == [4, 1, ToByte(r.port / 256), ToByte(r.port), 0, 0, 0, r.x] + r.userId + [0] + r.name + [0]
  {
    hide ToByte;
    if r.Connect5? {
      Encoded5(r);
    }
  }

  lemma Encoded5(r: Request)
    requires r.Connect5?
    ensures Encode(r)
            == [5, ToByte(|r.methods|)] + r.methods
               + (if r.login.None? then []
                  else [1, ToByte(|r.login.value.0|)] + r.login.value.0
                       + [ToByte(|r.login.value.1|)] + r.login.value.1)
               + (match r.address
                  case V4(a) => [r.version, 1, r.reserved, 1] + a
                  case Domain(name) => [r.version, 1, r.reserved, 3, ToByte(|name|)] + name
                  case V6(a) => [r.version, 1, r.reserved, 4] + a)
               + [ToByte(r.port / 256), ToByte(r.port)]
  {
    hide ToByte;
    var login := LoginBytes(r.login);
    assert [5] + Counted(r.methods) == [5, ToByte(|r.methods|)] + r.methods;
    if r.login.Some? {
      var l := r.login.value;
      assert login == [1, ToByte(|l.0|)] + l.0 + [ToByte(|l.1|)] + l.1;
    }
    var head := [r.version, 1, r.reserved, AddressType(r.address)] + AddressBytes(r.address);
    assert r.address.Domain? ==>
      head == [r.version, 1, r.reserved, 3, ToByte(|r.address.name|)] + r.address.name;
    var greeting := [5] + Counted(r.methods) + login;
    assert greeting + [r.version, 1, r.reserved, AddressType(r.address)] + AddressBytes(r.address) == greeting + head;
  }

  // ---- wrong logins ----

  /** With a login configured and password authentication offered: the negotiation goes on if and only if both fields
      decode to what is configured; else exactly 5 2 1 1 is written, and no target is ever returned, whatever
      else has been or will be sent, in whatever chunks. */
  lemma LoginDecides(c: Setup, methods: seq<byte>, user: seq<byte>, pass: seq<byte>, rest: seq<byte>,
                     chunks: seq<seq<byte>>)
    requires c.auth.Some? && |methods| < 256 && |user| < 256 && |pass| < 256 && 2 in methods
    requires Concat(chunks) == [5, ToByte(|methods|)] + methods
                               + ([1, ToByte(|user|)] + user + ([ToByte(|pass|)] + pass + rest))
    ensures var m := FeedAll(c, BEGIN, chunks);
            var right := c.utf8(user) == c.auth.value.0 && c.utf8(pass) == c.auth.value.1;
            ([5, 2, 1, 0] <= m.written <==> right) &&
            (!right ==> m.written == [5, 2, 1, 1] && m.pc == Finished(None) &&
                        EndStream(m.pc, m.written) == (Finished(None), [5, 2, 1, 1]))
  {
    hide FeedAll, Run, Counted, ToByte, EndStream;
    var login := [1, ToByte(|user|)] + user + ([ToByte(|pass|)] + pass + rest);
    Fed(c, methods, login, chunks);
    MethodStage(c, methods, login);
    LoginRead(c, user, pass, rest);
    var right := c.utf8(user) == c.auth.value.0 && c.utf8(pass) == c.auth.value.1;
    if right {
      Written(c, Head5, rest, [5, 2, 1, 0]);
    } else {
      Settled(c, rest, [5, 2, 1, 1]);
      assert FeedAll(c, BEGIN, chunks).written[3] == 1;
    }
  }

  /** A login of another version than 1 is not answered, and yields no target. */
  lemma LoginVersion(c: Setup, methods: seq<byte>, version: byte, rest: seq<byte>, chunks: seq<seq<byte>>)
    requires c.auth.Some? && |methods| < 256 && 2 in methods && version != 1
    requires Concat(chunks) == [5, ToByte(|methods|)] + methods + ([version] + rest)
    ensures var m := FeedAll(c, BEGIN, chunks); m.written == [5, 2] && m.pc == Finished(None)
  {
    hide FeedAll, Run, Counted, ToByte;
    Fed(c, methods, [version] + rest, chunks);
    MethodStage(c, methods, [version] + rest);
    Take(c, AuthVersion, [version], rest, [5, 2]);
    NoReply();
    Settled(c, rest, [5, 2]);
  }

  /** Without password authentication among the methods offered, exactly 5 255 is written. */
  lemma LoginNotOffered(c: Setup, methods: seq<byte>, rest: seq<byte>, chunks: seq<seq<byte>>)
    requires c.auth.Some? && |methods| < 256 && 2 !in methods
    requires Concat(chunks) == [5, ToByte(|methods|)] + methods + rest
    ensures var m := FeedAll(c, BEGIN, chunks);
            m.written == [5, 255] && m.pc == Finished(None) &&
            EndStream(m.pc, m.written) == (Finished(None), [5, 255])
  {
    hide FeedAll, Run, Counted, ToByte, EndStream;
    Fed(c, methods, rest, chunks);
    MethodStage(c, methods, rest);
    Settled(c, rest, [5, 255]);
  }

  /** Any chunks of a greeting and what follows end where one run over all the bytes does. */
  lemma Fed(c: Setup, methods: seq<byte>, rest: seq<byte>, chunks: seq<seq<byte>>)
    requires Concat(chunks) == [5, ToByte(|methods|)] + methods + rest
    ensures var m := FeedAll(c, BEGIN, chunks);
            var r := Run(c, Version, [0x05] + Counted(methods) + rest, []);
            m.pc == r.pc && m.written == r.written
  {
    hide FeedAll, Pump, ToByte;
    var all := Concat(chunks);
    assert [0x05] + Counted(methods) + rest == all;
    FedAll(c, all, chunks);
  }

  lemma FedAll(c: Setup, all: seq<byte>, chunks: seq<seq<byte>>)
    requires Concat(chunks) == all
    ensures var m := FeedAll(c, BEGIN, chunks);
            m.pc == Run(c, Version, all, []).pc && m.written == Run(c, Version, all, []).written
  {
    hide FeedAll, Pump;
    ChunkingIsInvisible(c, BEGIN, chunks);
    assert [] + all == all;
  }

  lemma LoginRead(c: Setup, user: seq<byte>, pass: seq<byte>, rest: seq<byte>)
    requires c.auth.Some? && |user| < 256 && |pass| < 256
    ensures Run(c, AuthVersion, [1, ToByte(|user|)] + user + ([ToByte(|pass|)] + pass + rest), [5, 2])
            == if c.utf8(user) == c.auth.value.0 && c.utf8(pass) == c.auth.value.1
               then Run(c, Head5, rest, [5, 2, 1, 0])
               else Run(c, Finished(None), rest, [5, 2, 1, 1])
  {
    hide Run, ToByte, Value;
    ToByteValue(|user|);
    ToByteValue(|pass|);
    var tail := Counted(pass) + rest;
    var bytes := [1, ToByte(|user|)] + user + ([ToByte(|pass|)] + pass + rest);
    assert bytes == [1] + (Counted(user) + tail);
    Take(c, AuthVersion, [1], Counted(user) + tail, [5, 2]);
    assert [5, 2] + [] == [5 as byte, 2];
    TakeCounted(c, UserLength, user, tail, [5, 2]);
    TakeCounted(c, PassLength(user), pass, rest, [5, 2]);
    assert [5, 2] + [1, 1] == [5 as byte, 2, 1, 1] && [5, 2] + [1, 0] == [5 as byte, 2, 1, 0];
  }

  lemma Written(c: Setup, pc: Pc, bytes: seq<byte>, written: seq<byte>)
    requires ValidPc(pc)
    ensures written <= Run(c, pc, bytes, written).written
  {
    PumpWrites(c, Machine(pc, bytes, written, []));
  }

  /** A negotiation that is over stays as it is. */
  lemma Settled(c: Setup, bytes: seq<byte>, written: seq<byte>)
    ensures Run(c, Finished(None), bytes, written) == Machine(Finished(None), bytes, written, [])
    ensures EndStream(Finished(None), written) == (Finished(None), written)
  {}

  // ---- other commands and unknown versions ----

  /** A first byte other than 4 and 5 gets no answer and no target. */
  lemma UnknownVersion(c: Setup, all: seq<byte>, chunks: seq<seq<byte>>)
    requires Concat(chunks) == all && all != [] && all[0] != 4 && all[0] != 5
    ensures var m := FeedAll(c, BEGIN, chunks); m.written == [] && m.pc == Finished(None)
  {
    hide FeedAll, Run;
    FedAll(c, all, chunks);
    assert all == [all[0]] + all[1..];
    Take(c, Version, [all[0]], all[1..], []);
    NoReply();
    Settled(c, all[1..], []);
  }

  /** After the greeting of a server without login: a SOCKS5 command other than CONNECT is answered with 5 7 and zeros,
      an address type that is not 1, 3 or 4 with nothing, and neither yields a target. */
  lemma CommandRefused(c: Setup, methods: seq<byte>, head: seq<byte>, rest: seq<byte>, chunks: seq<seq<byte>>)
    requires c.auth.None? && |methods| < 256 && |head| == 4
    requires Concat(chunks) == [5, ToByte(|methods|)] + methods + (head + rest)
    ensures var m := FeedAll(c, BEGIN, chunks);
            (head[1] != 1 ==> m.written == [5, 0] + [5, 7, 0, 1, 0, 0, 0, 0, 0, 0] && m.pc == Finished(None)) &&
            (head[1] == 1 && head[3] != 1 && head[3] != 3 && head[3] != 4 ==>
               m.written == [5, 0] && m.pc == Finished(None))
  {
    hide FeedAll, Run, Counted, ToByte;
    Fed(c, methods, head + rest, chunks);
    MethodStage(c, methods, head + rest);
    HeadRefused(c, head, rest, [5, 0]);
  }

  /** The same after a right login. */
  lemma CommandRefusedAfterLogin(c: Setup, methods: seq<byte>, user: seq<byte>, pass: seq<byte>, head: seq<byte>,
                                 rest: seq<byte>, chunks: seq<seq<byte>>)
    requires c.auth.Some? && |methods| < 256 && |user| < 256 && |pass| < 256 && 2 in methods && |head| == 4
    requires c.utf8(user) == c.auth.value.0 && c.utf8(pass) == c.auth.value.1
    requires Concat(chunks) == [5, ToByte(|methods|)] + methods
                               + ([1, ToByte(|user|)] + user + ([ToByte(|pass|)] + pass + (head + rest)))
    ensures var m := FeedAll(c, BEGIN, chunks);
            (head[1] != 1 ==> m.written == [5, 2, 1, 0] + [5, 7, 0, 1, 0, 0, 0, 0, 0, 0] && m.pc == Finished(None)) &&
            (head[1] == 1 && head[3] != 1 && head[3] != 3 && head[3] != 4 ==>
               m.written == [5, 2, 1, 0] && m.pc == Finished(None))
  {
    hide FeedAll, Run, Counted, ToByte;
    var login := [1, ToByte(|user|)] + user + ([ToByte(|pass|)] + pass + (head + rest));
    Fed(c, methods, login, chunks);
    MethodStage(c, methods, login);
    LoginRead(c, user, pass, head + rest);
    HeadRefused(c, head, rest, [5, 2, 1, 0]);
  }

  lemma HeadRefused(c: Setup, head: seq<byte>, rest: seq<byte>, written: seq<byte>)
    requires |head| == 4
    ensures var m := Run(c, Head5, head + rest, written);
            (head[1] != 1 ==> m.written == written + [5, 7, 0, 1, 0, 0, 0, 0, 0, 0] && m.pc == Finished(None)) &&
            (head[1] == 1 && head[3] != 1 && head[3] != 3 && head[3] != 4 ==>
               m.written == written && m.pc == Finished(None))
  {
    hide Run;
    Take(c, Head5, head, rest, written);
    assert written + [] == written;
    Settled(c, rest, written);
    Settled(c, rest, written + [5, 7, 0, 1, 0, 0, 0, 0, 0, 0]);
  }

  /** Once past the first byte of SOCKS4, a command other than CONNECT has no way to a target. */
  ghost predicate Refusing(pc: Pc) {
    ValidPc(pc) && (pc.UserId? || pc.HostName? || pc == Finished(None)) &&
    (pc.UserId? || pc.HostName? ==> pc.head[0] != 1)
  }

  lemma {:induction false} PumpRefuses(c: Setup, m: Machine)
    requires Refusing(m.pc) && (!m.pc.Finished? ==> m.written == [])
    requires m.pc.Finished? ==> m.written == [] || m.written == [0, 91, 0, 0, 0, 0, 0, 0]
    ensures var n := Pump(c, m);
            Refusing(n.pc) && (!n.pc.Finished? ==> n.written == []) &&
            (n.pc.Finished? ==> n.written == [] || n.written == [0, 91, 0, 0, 0, 0, 0, 0])
    decreases |m.buf|, Rank(m.pc)
  {
    hide DottedQuad, Uint16;
    NoReply();
    if !m.pc.Finished? && |m.buf| >= Need(m.pc) {
      var n := Need(m.pc);
      var s := Resume(c, m.pc, m.buf[..n]);
      PumpStep(c, m);
      PumpRefuses(c, m.(pc := s.pc, buf := m.buf[n..], written := m.written + s.reply));
    }
  }

  /** On any bytes that begin with 4 and a command other than 1, in any chunks and with the connection ending anywhere:
      no target, and no reply but 0 91 and zeros. */
  lemma CommandRefused4(c: Setup, all: seq<byte>, chunks: seq<seq<byte>>)
    requires Concat(chunks) == all && |all| >= 2 && all[0] == 4 && all[1] != 1
    ensures var m := FeedAll(c, BEGIN, chunks);
            var e := EndStream(m.pc, m.written);
            (m.pc.Finished? ==> m.pc == Finished(None)) && e.0 == Finished(None) &&
            (m.written == [] || m.written == [0, 91, 0, 0, 0, 0, 0, 0]) &&
            (e.1 == [] || e.1 == [0, 91, 0, 0, 0, 0, 0, 0])
  {
    hide FeedAll, Pump, DottedQuad, Uint16;
    FedAll(c, all, chunks);
    FirstByteRead(c, all);
    var rest := all[1..];
    if |rest| >= 7 {
      HeadRead(c, rest);
      PumpRefuses(c, Machine(UserId(rest[..7]), rest[7..], [], []));
    } else {
      PumpOfResting(c, Machine(Head4, rest, [], []));
    }
    var m := FeedAll(c, BEGIN, chunks);
    EndRefuses(m.pc, m.written);
  }

  lemma EndRefuses(pc: Pc, written: seq<byte>)
    requires Refusing(pc) || pc == Head4
    requires !pc.Finished? ==> written == []
    requires written == [] || written == [0, 91, 0, 0, 0, 0, 0, 0]
    ensures var e := EndStream(pc, written);
            e.0 == Finished(None) && (e.1 == [] || e.1 == [0, 91, 0, 0, 0, 0, 0, 0])
  {
    hide DottedQuad, Uint16;
    NoReply();
    if !pc.Finished? {
      var s := ResumeNull(pc);
      if !s.pc.Finished? {
        var t := ResumeNull(s.pc);
        assert EndStream(s.pc, written + s.reply) == EndStream(t.pc, written + s.reply + t.reply);
      }
    }
  }

  /** A complete SOCKS4 request, user id and all, with another command is answered with 0 91 and zeros. */
  lemma CommandAnswered4(c: Setup, command: byte, port: seq<byte>, ip: seq<byte>, userId: seq<byte>, rest: seq<byte>,
                         chunks: seq<seq<byte>>)
    requires command != 1 && |port| == 2 && |ip| == 4 && 0 !in userId
    requires !(ip[0] == 0 && ip[1] == 0 && ip[2] == 0 && ip[3] != 0)
    requires Concat(chunks) == [4] + ([command] + port + ip + (userId + [0] + rest))
    ensures var m := FeedAll(c, BEGIN, chunks);
            m.pc == Finished(None) && m.written == [0, 91, 0, 0, 0, 0, 0, 0]
  {
    hide FeedAll, Run, DottedQuad, Uint16;
    var head := [command] + port + ip;
    var all := [4] + (head + (userId + [0] + rest));
    FedAll(c, all, chunks);
    NoReply();
    Take(c, Version, [4], head + (userId + [0] + rest), []);
    Take(c, Head4, head, userId + [0] + rest, []);
    TakeUserId(c, head, userId, rest);
    assert head[3..] == ip;
    Settled(c, rest, [0, 91, 0, 0, 0, 0, 0, 0]);
  }

  /** The same for a request with a host name. */
  lemma CommandAnswered4a(c: Setup, command: byte, port: seq<byte>, x: byte, userId: seq<byte>, name: seq<byte>,
                          rest: seq<byte>, chunks: seq<seq<byte>>)
    requires command != 1 && |port| == 2 && x != 0 && 0 !in userId && 0 !in name
    requires Concat(chunks) == [4] + ([command] + port + [0, 0, 0, x] + (userId + [0] + (name + [0] + rest)))
    ensures var m := FeedAll(c, BEGIN, chunks);
            m.pc == Finished(None) && m.written == [0, 91, 0, 0, 0, 0, 0, 0]
  {
    hide FeedAll, Run, DottedQuad, Uint16;
    var head := [command] + port + [0, 0, 0, x];
    var tail := name + [0] + rest;
    var all := [4] + (head + (userId + [0] + tail));
    FedAll(c, all, chunks);
    NoReply();
    Take(c, Version, [4], head + (userId + [0] + tail), []);
    Take(c, Head4, head, userId + [0] + tail, []);
    TakeUserId(c, head, userId, tail);
    TakeHostName(c, head, [], name, rest);
    Settled(c, rest, [0, 91, 0, 0, 0, 0, 0, 0]);
  }
}
