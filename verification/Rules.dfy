/** The rule engine (src/rules/engine.ts): applying the loaded rules to a request and to a response. */
module Rules {
  import opened Prelude
  import opened Headers
  import opened Text
  import opened FlowModel

  datatype Op =
    | Host | Rewrite | Redirect | ReqHeaders | ReqType | Ua | Referer | ReqReplace | Delay | Block | Abort | File
    | Dir | Highlight | Mock | ResBody | Status | ResHeaders | ResType | ResReplace
    | Unknown(spelling: string)

  /** A loaded rule; its pattern has been compiled to a predicate on flows. */
  datatype Rule = Rule(op: Op, value: string, pattern: string, matches: View -> bool)

  datatype Url = Url(scheme: string, host: string, port: int, path: string, hostHeader: string)

  datatype FileMock = FileMock(headers: Fields, body: seq<byte>)

  datatype MockBody = MockBody(body: seq<byte>, contentType: Option<string>)

  /** The libraries and the file system behind the operators: host:port and URL parsing, header
      specifications as lists of edits (an empty value deletes), body substitution, parseInt (None: not a
      number), mapped files and directories, and literal or file-backed mock bodies. */
  datatype Env = Env(hostPort: (string, int) -> (string, int), url: string -> Option<Url>,
                     spec: string -> seq<(string, string)>, replace: (seq<byte>, string) -> seq<byte>,
                     number: string -> Option<int>, file: string -> Option<FileMock>,
                     dir: (string, string, string) -> Option<FileMock>, mockBody: string -> MockBody,
                     dirMissing: seq<byte>)

  datatype MockResponse = MockResponse(status: int, headers: Fields, body: seq<byte>)

  datatype Directive = Directive(block: bool, delayMs: int, mock: Option<MockResponse>)

  function OpName(op: Op): string {
    match op
    case Host => "host" case Rewrite => "rewrite" case Redirect => "redirect" case ReqHeaders => "reqheaders"
    case ReqType => "reqtype" case Ua => "ua" case Referer => "referer" case ReqReplace => "reqreplace"
    case Delay => "delay" case Block => "block" case Abort => "abort" case File => "file" case Dir => "dir"
    case Highlight => "highlight" case Mock => "mock" case ResBody => "resbody" case Status => "status"
    case ResHeaders => "resheaders" case ResType => "restype" case ResReplace => "resreplace"
    case Unknown(spelling) => spelling
  }

  // ---- pieces of the operators ----

  function Edited(headers: Fields, edits: seq<(string, string)>): Fields
    decreases |edits|
  {
    if edits == [] then headers
    else
      var e := edits[0];
      Edited(if e.1 == [] then HDelete(headers, e.0) else HSet(headers, e.0, e.1), edits[1..])
  }

  function SetEach(headers: Fields, more: Fields): Fields
    decreases |more|
  {
    if more == [] then headers else SetEach(HSet(headers, more[0].0, more[0].1), more[1..])
  }

  /** JavaScript's "parseInt(value) || fallback". */
  function NumberOr(env: Env, value: string, fallback: int): int {
    match env.number(value) case Some(n) => if n == 0 then fallback else n case None => fallback
  }

  function ReplaceBody(env: Env, body: Option<seq<byte>>, spec: string): Option<seq<byte>> {
    match body case None => None case Some(b) => Some(env.replace(b, spec))
  }

  function Rewritten(env: Env, r: Request, value: string): Request {
    match env.url(value)
    case Some(u) => r.(scheme := u.scheme, host := u.host, port := u.port, path := u.path,
                       headers := HSet(r.headers, "host", u.hostHeader))
    case None => r.(path := value)
  }

  /** What a matched rule does to the flow. */
  function OnFlow(env: Env, v: View, r: Rule): View {
    var q := v.request;
    match r.op
    case Host => var hp := env.hostPort(r.value, q.port); v.(request := q.(host := hp.0, port := hp.1))
    case Rewrite => v.(request := Rewritten(env, q, r.value))
    case ReqHeaders => v.(request := q.(headers := Edited(q.headers, env.spec(r.value))))
    case ReqType => v.(request := q.(headers := HSet(q.headers, "content-type", r.value)))
    case Ua => v.(request := q.(headers := HSet(q.headers, "user-agent", r.value)))
    case Referer => v.(request := q.(headers := HSet(q.headers, "referer", r.value)))
    case ReqReplace => v.(request := q.(body := ReplaceBody(env, q.body, r.value)))
    case Highlight => v.(color := if r.value == [] then "yellow" else r.value)
    case _ => v
  }

  /** The variables of the loop. */
  datatype Loop = Loop(view: View, block: bool, delay: int, headers: Fields, status: int, body: Option<seq<byte>>,
                       hasMock: bool)

  function Orr(n: int, fallback: int): int {
    if n == 0 then fallback else n
  }

  /** One matched rule. */
  function ApplyOne(env: Env, p: Loop, r: Rule): Loop {
    var l := p.(view := OnFlow(env, p.view.(appliedRules := p.view.appliedRules + [OpName(r.op)]), r));
    match r.op
    case Redirect =>
      l.(status := 302, headers := HSet(p.headers, "location", r.value), body := Some([]), hasMock := true)
    case Delay => l.(delay := Max(p.delay, NumberOr(env, r.value, 0)))
    case Block => l.(block := true)
    case Abort => l.(block := true)
    case File =>
      (match env.file(r.value)
       case Some(f) => l.(status := Orr(p.status, 200), headers := SetEach(p.headers, f.headers), body := Some(f.body),
                          hasMock := true)
       case None => l)
    case Dir =>
      (match env.dir(r.value, p.view.request.path, r.pattern)
       case Some(f) => l.(status := Orr(p.status, 200), headers := SetEach(p.headers, f.headers), body := Some(f.body),
                          hasMock := true)
       case None => l.(status := 404, body := Some(env.dirMissing), hasMock := true))
    case Mock => WithMockBody(env, l, r)
    case ResBody => WithMockBody(env, l, r)
    case Status => l.(status := NumberOr(env, r.value, 200), hasMock := true)
    case ResHeaders =>
      var h := Edited(p.headers, env.spec(r.value));
      l.(headers := h, hasMock := p.hasMock || |h| > 0)
    case ResType => l.(headers := HSet(p.headers, "content-type", r.value))
    case _ => l
  }

  function WithMockBody(env: Env, l: Loop, r: Rule): Loop {
    var m := env.mockBody(r.value);
    l.(body := Some(m.body), status := Orr(l.status, 200), hasMock := true,
       headers := if m.contentType.Some? && m.contentType.value != [] && !HHas(l.headers, "content-type")
                  then HSet(l.headers, "content-type", m.contentType.value) else l.headers)
  }

  /** The rule acts in the request phase and matches the flow as it is now. */
  predicate Fires(v: View, r: Rule) {
    !r.op.Unknown? && r.matches(v)
  }

  function ApplyAll(env: Env, p: Loop, rules: seq<Rule>): Loop
    decreases |rules|
  {
    if rules == [] then p
    else ApplyAll(env, if Fires(p.view, rules[0]) then ApplyOne(env, p, rules[0]) else p, rules[1..])
  }

  function Begin(v: View): Loop {
    Loop(v, false, 0, [], 0, None, false)
  }

  function Ended(p: Loop): (View, Directive) {
    if p.hasMock then
      (p.view.(mocked := true),
       Directive(p.block, p.delay,
                 Some(MockResponse(Orr(p.status, 200), p.headers, match p.body case Some(b) => b case None => []))))
    else (p.view, Directive(p.block, p.delay, None))
  }

  function Requested(env: Env, v: View, rules: seq<Rule>): (View, Directive) {
    Ended(ApplyAll(env, Begin(v), rules))
  }

  // ---- the response phase ----

  function OnResponse(env: Env, v: View, r: Rule): View {
    match v.response
    case None => v
    case Some(s) =>
      match r.op
      case ResHeaders =>
        v.(response := Some(s.(headers := Edited(s.headers, env.spec(r.value)))),
           appliedRules := v.appliedRules + ["resHeaders"])
      case ResType => v.(response := Some(s.(headers := HSet(s.headers, "content-type", r.value))))
      case Status => v.(response := Some(s.(statusCode := NumberOr(env, r.value, s.statusCode))))
      case ResReplace =>
        v.(response := Some(s.(body := ReplaceBody(env, s.body, r.value))),
           appliedRules := v.appliedRules + ["resReplace"])
      case _ => v
  }

  function Responded(env: Env, v: View, rules: seq<Rule>): View
    decreases |rules|
  {
    if rules == [] then v
    else Responded(env, if rules[0].matches(v) then OnResponse(env, v, rules[0]) else v, rules[1..])
  }

  predicate RewritesBody(op: Op) {
    op.ResReplace? || op.ResBody? || op.Mock? || op.File?
  }

  class RuleEngine {
    var rules: seq<Rule>
    const env: Env

    constructor (env: Env, rules: seq<Rule>)
      ensures this.env == env && this.rules == rules
    {
      this.env, this.rules := env, rules;
    }

    /** The request phase: later rules are matched against the flow as earlier rules have changed it. */
    method ApplyRequest(flow: Flow) returns (directive: Directive)
      requires flow.Valid()
      modifies flow`request, flow`color, flow`appliedRules, flow`mocked
      ensures flow.Valid() && (flow.Look(), directive) == Requested(env, old(flow.Look()), rules)
    {
      hide ApplyOne, OnFlow;
      var p := Begin(flow.Look());
      var i := 0;
      assert rules[0..] == rules;
      while i < |rules|
        invariant 0 <= i <= |rules|
        invariant flow.Valid() && flow.Look() == p.view && flow.response == old(flow.response)
        invariant p.view.response == old(flow.response)
        invariant ApplyAll(env, p, rules[i..]) == ApplyAll(env, Begin(old(flow.Look())), rules)
      {
        var rule := rules[i];
        assert rules[i..][1..] == rules[i + 1..];
        if Fires(flow.Look(), rule) {
          KeepsResponse(env, p, rule);
          p := ApplyOne(env, p, rule);
          flow.request, flow.color := p.view.request, p.view.color;
          flow.appliedRules, flow.mocked := p.view.appliedRules, p.view.mocked;
        }
        i := i + 1;
      }
      var e := Ended(p);
      flow.mocked := e.0.mocked;
      directive := e.1;
    }

    /** The response phase; nothing happens before there is a response. */
    method ApplyResponse(flow: Flow)
      requires flow.Valid()
      modifies flow`response, flow`appliedRules
      ensures flow.Valid()
      ensures flow.Look()
              == if old(flow.response).None? then old(flow.Look()) else Responded(env, old(flow.Look()), rules)
    {
      hide OnResponse;
      if flow.response.None? {
        return;
      }
      var i := 0;
      assert rules[0..] == rules;
      while i < |rules|
        invariant 0 <= i <= |rules| && flow.Valid()
        invariant Responded(env, flow.Look(), rules[i..]) == Responded(env, old(flow.Look()), rules)
      {
        assert rules[i..][1..] == rules[i + 1..];
        if rules[i].matches(flow.Look()) {
          var v := OnResponse(env, flow.Look(), rules[i]);
          OnlyResponse(env, flow.Look(), rules[i]);
          flow.response, flow.appliedRules := v.response, v.appliedRules;
        }
        i := i + 1;
      }
    }

    method HasResponseBodyRule(flow: Flow) returns (r: bool)
      ensures r <==> exists i | 0 <= i < |rules| :: RewritesBody(rules[i].op) && rules[i].matches(flow.Look())
    {
      for k := 0 to |rules|
        invariant forall i | 0 <= i < k :: !(RewritesBody(rules[i].op) && rules[i].matches(flow.Look()))
      {
        if RewritesBody(rules[k].op) && rules[k].matches(flow.Look()) {
          return true;
        }
      }
      return false;
    }
  }

  lemma KeepsResponse(env: Env, p: Loop, r: Rule)
    ensures ApplyOne(env, p, r).view.response == p.view.response
    ensures ApplyOne(env, p, r).view.mocked == p.view.mocked
    ensures ApplyOne(env, p, r).view.appliedRules == p.view.appliedRules + [OpName(r.op)]
  {
    hide Edited, SetEach, OpName, NumberOr;
  }

  lemma OnlyResponse(env: Env, v: View, r: Rule)
    ensures var w := OnResponse(env, v, r);
            w == v.(response := w.response, appliedRules := w.appliedRules) &&
            (w.response.Some? <==> v.response.Some?)
  {
    hide Edited, NumberOr;
  }

  // ---- the declarative reading ----

  /** A rule that fired, with the flow as it was when it did. */
  datatype Hit = Hit(rule: Rule, view: View)

  /** The rules that fire on a flow, in order, each on what the ones before made of it. */
  function Hits(env: Env, v: View, rules: seq<Rule>): seq<Hit>
    decreases |rules|
  {
    if rules == [] then []
    else if Fires(v, rules[0]) then
      var marked := v.(appliedRules := v.appliedRules + [OpName(rules[0].op)]);
      [Hit(rules[0], v)] + Hits(env, OnFlow(env, marked, rules[0]), rules[1..])
    else Hits(env, v, rules[1..])
  }

  function DirOf(env: Env, h: Hit): Option<FileMock> {
    env.dir(h.rule.value, h.view.request.path, h.rule.pattern)
  }

  /** The status a hit asks for: redirects, status rules and directories without the file. */
  function StatusOf(env: Env, h: Hit): Option<int> {
    match h.rule.op
    case Redirect => Some(302)
    case Status => Some(NumberOr(env, h.rule.value, 200))
    case Dir => if DirOf(env, h).None? then Some(404) else None
    case _ => None
  }

  function BodyOf(env: Env, h: Hit): Option<seq<byte>> {
    match h.rule.op
    case Redirect => Some([])
    case File => (match env.file(h.rule.value) case Some(f) => Some(f.body) case None => None)
    case Dir => (match DirOf(env, h) case Some(f) => Some(f.body) case None => Some(env.dirMissing))
    case Mock => Some(env.mockBody(h.rule.value).body)
    case ResBody => Some(env.mockBody(h.rule.value).body)
    case _ => None
  }

  /** A hit that by itself asks for a synthesized response. */
  predicate Synthesizes(env: Env, h: Hit) {
    StatusOf(env, h).Some? || BodyOf(env, h).Some?
  }

  predicate IsLast<T(==)>(xs: seq<Option<T>>, i: nat) {
    i < |xs| && xs[i].Some? && forall j | i < j < |xs| :: xs[j].None?
  }

  function Statuses(env: Env, hits: seq<Hit>): (r: seq<Option<int>>)
    ensures |r| == |hits|
  {
    seq(|hits|, i requires 0 <= i < |hits| => StatusOf(env, hits[i]))
  }

  function Bodies(env: Env, hits: seq<Hit>): (r: seq<Option<seq<byte>>>)
    ensures |r| == |hits|
  {
    seq(|hits|, i requires 0 <= i < |hits| => BodyOf(env, hits[i]))
  }

  function Names(hits: seq<Hit>): (r: seq<string>)
    ensures |r| == |hits|
  {
    seq(|hits|, i requires 0 <= i < |hits| => OpName(hits[i].rule.op))
  }

  /** How one hit edits the headers of the synthesized response. */
  function HeaderEdit(env: Env, headers: Fields, h: Hit): Fields {
    match h.rule.op
    case Redirect => HSet(headers, "location", h.rule.value)
    case File => (match env.file(h.rule.value) case Some(f) => SetEach(headers, f.headers) case None => headers)
    case Dir => (match DirOf(env, h) case Some(f) => SetEach(headers, f.headers) case None => headers)
    case Mock => WithContentType(env, headers, h)
    case ResBody => WithContentType(env, headers, h)
    case ResHeaders => Edited(headers, env.spec(h.rule.value))
    case ResType => HSet(headers, "content-type", h.rule.value)
    case _ => headers
  }

  function WithContentType(env: Env, headers: Fields, h: Hit): Fields {
    var t := env.mockBody(h.rule.value).contentType;
    if t.Some? && t.value != [] && !HHas(headers, "content-type") then HSet(headers, "content-type", t.value)
    else headers
  }

  function HeadersOf(env: Env, hits: seq<Hit>): Fields {
    if hits == [] then [] else HeaderEdit(env, HeadersOf(env, hits[..|hits| - 1]), hits[|hits| - 1])
  }

  /** The delay is the largest one asked for, and zero when none is positive. */
  ghost predicate IsDelay(env: Env, hits: seq<Hit>, d: int) {
    d >= 0 &&
    (forall i | 0 <= i < |hits| && hits[i].rule.op.Delay? :: NumberOr(env, hits[i].rule.value, 0) <= d) &&
    (d == 0 || exists i | 0 <= i < |hits| :: hits[i].rule.op.Delay? && NumberOr(env, hits[i].rule.value, 0) == d)
  }

  ghost predicate Blocks(hits: seq<Hit>) {
    exists i | 0 <= i < |hits| :: hits[i].rule.op.Block? || hits[i].rule.op.Abort?
  }

  /** Something asks for a synthesized response: a hit by itself, or a header rule that leaves headers. */
  ghost predicate Mocks(env: Env, hits: seq<Hit>) {
    exists i | 0 <= i < |hits| ::
      Synthesizes(env, hits[i]) || (hits[i].rule.op.ResHeaders? && HeadersOf(env, hits[..i + 1]) != [])
  }

  /** The loop variables say what the hits so far say. */
  ghost predicate Reads(env: Env, hits: seq<Hit>, names: seq<string>, p: Loop) {
    p.view.appliedRules == names + Names(hits) &&
    (p.block <==> Blocks(hits)) && IsDelay(env, hits, p.delay) && p.headers == HeadersOf(env, hits) &&
    (p.hasMock <==> Mocks(env, hits)) && StatusReads(env, hits, p.status) && BodyReads(env, hits, p.body)
  }

  /** The status is the last one asked for; with none asked for it is unset or 200. */
  ghost predicate StatusReads(env: Env, hits: seq<Hit>, status: int) {
    (forall i: nat | IsLast(Statuses(env, hits), i) :: status == Statuses(env, hits)[i].value && status != 0) &&
    ((forall i | 0 <= i < |hits| :: StatusOf(env, hits[i]).None?) ==> status == 0 || status == 200)
  }

  ghost predicate BodyReads(env: Env, hits: seq<Hit>, body: Option<seq<byte>>) {
    (forall i: nat | IsLast(Bodies(env, hits), i) :: body == Bodies(env, hits)[i]) &&
    ((forall i | 0 <= i < |hits| :: BodyOf(env, hits[i]).None?) ==> body.None?)
  }

  /** The last entry of a list with one more at the end. */
  lemma LastSnoc<T>(xs: seq<Option<T>>, x: Option<T>, i: nat)
    ensures x.Some? ==> (IsLast(xs + [x], i) <==> i == |xs|)
    ensures x.None? ==> (IsLast(xs + [x], i) <==> IsLast(xs, i))
  {
    var ys := xs + [x];
    assert ys[|xs|] == x;
    if x.None? && IsLast(xs, i) {
      forall j | i < j < |ys|
        ensures ys[j].None?
      {
        assert j < |xs| ==> ys[j] == xs[j];
      }
    }
    if x.None? && IsLast(ys, i) {
      forall j | i < j < |xs|
        ensures xs[j].None?
      {
        assert ys[j] == xs[j];
      }
    }
  }

  lemma StatusSnoc(env: Env, hits: seq<Hit>, p: Loop, r: Rule)
    requires StatusReads(env, hits, p.status)
    ensures StatusReads(env, hits + [Hit(r, p.view)], ApplyOne(env, p, r).status)
  {
    hide OnFlow, Edited, SetEach, OpName;
    var h := Hit(r, p.view);
    var all := hits + [h];
    var status := ApplyOne(env, p, r).status;
    assert Statuses(env, all) == Statuses(env, hits) + [StatusOf(env, h)];
    OneStatus(env, p, r);
    forall i: nat | IsLast(Statuses(env, all), i)
      ensures status == Statuses(env, all)[i].value && status != 0
    {
      LastSnoc(Statuses(env, hits), StatusOf(env, h), i);
    }
    if forall i | 0 <= i < |all| :: StatusOf(env, all[i]).None? {
      assert StatusOf(env, all[|hits|]).None?;
      forall i | 0 <= i < |hits|
        ensures StatusOf(env, hits[i]).None?
      {
        assert all[i] == hits[i];
      }
    }
  }

  lemma OneStatus(env: Env, p: Loop, r: Rule)
    ensures var s := StatusOf(env, Hit(r, p.view));
            var status := ApplyOne(env, p, r).status;
            if s.Some? then status == s.value && status != 0 else status == p.status || status == Orr(p.status, 200)
  {
    hide OnFlow, Edited, SetEach, OpName;
  }

  lemma BodySnoc(env: Env, hits: seq<Hit>, p: Loop, r: Rule)
    requires BodyReads(env, hits, p.body)
    ensures BodyReads(env, hits + [Hit(r, p.view)], ApplyOne(env, p, r).body)
  {
    hide OnFlow, Edited, SetEach, OpName;
    var h := Hit(r, p.view);
    var all := hits + [h];
    assert Bodies(env, all) == Bodies(env, hits) + [BodyOf(env, h)];
    OneBody(env, p, r);
    forall i: nat | IsLast(Bodies(env, all), i)
      ensures ApplyOne(env, p, r).body == Bodies(env, all)[i]
    {
      LastSnoc(Bodies(env, hits), BodyOf(env, h), i);
    }
    if forall i | 0 <= i < |all| :: BodyOf(env, all[i]).None? {
      assert BodyOf(env, all[|hits|]).None?;
      forall i | 0 <= i < |hits|
        ensures BodyOf(env, hits[i]).None?
      {
        assert all[i] == hits[i];
      }
    }
  }

  lemma OneBody(env: Env, p: Loop, r: Rule)
    ensures var b := BodyOf(env, Hit(r, p.view));
            ApplyOne(env, p, r).body == if b.Some? then b else p.body
  {
    hide OnFlow, Edited, SetEach, OpName;
  }

  lemma OneHeaders(env: Env, p: Loop, r: Rule)
    ensures ApplyOne(env, p, r).headers == HeaderEdit(env, p.headers, Hit(r, p.view))
  {
    hide OnFlow, Edited, SetEach, OpName, HSet, HHas;
  }

  lemma OneMock(env: Env, p: Loop, r: Rule)
    ensures var h := Hit(r, p.view);
            ApplyOne(env, p, r).hasMock
            == (p.hasMock || Synthesizes(env, h) || (r.op.ResHeaders? && HeaderEdit(env, p.headers, h) != []))
  {
    hide OnFlow, Edited, SetEach, OpName, HSet, HHas;
  }

  lemma OneFlow(env: Env, p: Loop, r: Rule)
    ensures var q := ApplyOne(env, p, r);
            q.view == OnFlow(env, p.view.(appliedRules := p.view.appliedRules + [OpName(r.op)]), r) &&
            q.view.appliedRules == p.view.appliedRules + [OpName(r.op)] &&
            q.block == (p.block || r.op.Block? || r.op.Abort?) &&
            q.delay == (if r.op.Delay? then Max(p.delay, NumberOr(env, r.value, 0)) else p.delay)
  {
    hide Edited, SetEach, OpName, HSet, HHas;
  }

  lemma HeadersSnoc(env: Env, hits: seq<Hit>, h: Hit)
    ensures HeadersOf(env, hits + [h]) == HeaderEdit(env, HeadersOf(env, hits), h)
  {
    hide HeaderEdit;
    assert (hits + [h])[..|hits|] == hits;
  }

  lemma MockSnoc(env: Env, hits: seq<Hit>, h: Hit)
    ensures Mocks(env, hits + [h])
            <==> Mocks(env, hits) || Synthesizes(env, h) ||
                 (h.rule.op.ResHeaders? && HeadersOf(env, hits + [h]) != [])
  {
    hide HeadersOf, Synthesizes;
    var all := hits + [h];
    if Mocks(env, hits) {
      var i :| 0 <= i < |hits| &&
        (Synthesizes(env, hits[i]) || (hits[i].rule.op.ResHeaders? && HeadersOf(env, hits[..i + 1]) != []));
      assert all[i] == hits[i] && all[..i + 1] == hits[..i + 1];
    }
    if Synthesizes(env, h) || (h.rule.op.ResHeaders? && HeadersOf(env, all) != []) {
      assert all[|hits|] == h && all[..|hits| + 1] == all;
    }
    if Mocks(env, all) {
      var i :| 0 <= i < |all| &&
        (Synthesizes(env, all[i]) || (all[i].rule.op.ResHeaders? && HeadersOf(env, all[..i + 1]) != []));
      if i < |hits| {
        assert all[i] == hits[i] && all[..i + 1] == hits[..i + 1];
      } else {
        assert all[..i + 1] == all;
      }
    }
  }

  lemma BlockSnoc(hits: seq<Hit>, h: Hit)
    ensures Blocks(hits + [h]) <==> Blocks(hits) || h.rule.op.Block? || h.rule.op.Abort?
  {
    var all := hits + [h];
    if Blocks(hits) {
      var i :| 0 <= i < |hits| && (hits[i].rule.op.Block? || hits[i].rule.op.Abort?);
      assert all[i] == hits[i];
    }
    assert all[|hits|] == h;
  }

  lemma DelaySnoc(env: Env, hits: seq<Hit>, h: Hit, d: int)
    requires IsDelay(env, hits, d)
    ensures IsDelay(env, hits + [h], if h.rule.op.Delay? then Max(d, NumberOr(env, h.rule.value, 0)) else d)
  {
    hide NumberOr;
    var all := hits + [h];
    assert all[|hits|] == h;
    if d != 0 {
      var i :| 0 <= i < |hits| && hits[i].rule.op.Delay? && NumberOr(env, hits[i].rule.value, 0) == d;
      assert all[i] == hits[i];
    }
  }

  /** One more hit keeps the reading. */
  lemma ReadsSnoc(env: Env, hits: seq<Hit>, names: seq<string>, p: Loop, r: Rule)
    requires Reads(env, hits, names, p)
    ensures Reads(env, hits + [Hit(r, p.view)], names, ApplyOne(env, p, r))
  {
    hide ApplyOne, OnFlow, HeaderEdit, HeadersOf, StatusReads, BodyReads, IsDelay, Blocks, Mocks, OpName, NumberOr;
    var h := Hit(r, p.view);
    OneFlow(env, p, r);
    OneHeaders(env, p, r);
    OneMock(env, p, r);
    StatusSnoc(env, hits, p, r);
    BodySnoc(env, hits, p, r);
    HeadersSnoc(env, hits, h);
    MockSnoc(env, hits, h);
    BlockSnoc(hits, h);
    DelaySnoc(env, hits, h, p.delay);
    assert names + Names(hits + [h]) == names + Names(hits) + [OpName(r.op)];
  }

  lemma {:induction false} AllReads(env: Env, hits: seq<Hit>, names: seq<string>, p: Loop, rules: seq<Rule>)
    requires Reads(env, hits, names, p)
    ensures Reads(env, hits + Hits(env, p.view, rules), names, ApplyAll(env, p, rules))
    decreases |rules|
  {
    hide Reads, ApplyOne, OnFlow;
    if rules == [] {
      assert hits + Hits(env, p.view, rules) == hits;
    } else if Fires(p.view, rules[0]) {
      ReadsSnoc(env, hits, names, p, rules[0]);
      OneFlow(env, p, rules[0]);
      var q := ApplyOne(env, p, rules[0]);
      var h := Hit(rules[0], p.view);
      AllReads(env, hits + [h], names, q, rules[1..]);
      assert hits + Hits(env, p.view, rules) == hits + [h] + Hits(env, q.view, rules[1..]);
    } else {
      AllReads(env, hits, names, p, rules[1..]);
    }
  }

  lemma NoHits(env: Env, v: View)
    ensures Reads(env, [], v.appliedRules, Begin(v))
  {
    assert v.appliedRules + Names([]) == v.appliedRules;
  }

  /** The declarative reading of the request phase, although earlier rules change what later rules are
      matched against: the rules that fired decide, in order, and nothing else does. */
  lemma RequestReading(env: Env, v: View, rules: seq<Rule>)
    ensures var hits := Hits(env, v, rules);
            var (w, d) := Requested(env, v, rules);
            w.appliedRules == v.appliedRules + Names(hits) && (w.mocked <==> v.mocked || d.mock.Some?) &&
            (d.block <==> Blocks(hits)) && IsDelay(env, hits, d.delayMs) && (d.mock.Some? <==> Mocks(env, hits))
    ensures var hits := Hits(env, v, rules);
            var d := Requested(env, v, rules).1;
            d.mock.Some? ==>
              d.mock.value.headers == HeadersOf(env, hits) &&
              (forall i: nat | IsLast(Statuses(env, hits), i) :: d.mock.value.status == Statuses(env, hits)[i].value) &&
              ((forall i | 0 <= i < |hits| :: StatusOf(env, hits[i]).None?) ==> d.mock.value.status == 200) &&
              (forall i: nat | IsLast(Bodies(env, hits), i) :: d.mock.value.body == Bodies(env, hits)[i].value) &&
              ((forall i | 0 <= i < |hits| :: BodyOf(env, hits[i]).None?) ==> d.mock.value.body == [])
  {
    hide ApplyAll, Hits, HeadersOf, Mocks, Blocks, IsDelay, StatusOf, BodyOf;
    NoHits(env, v);
    var hits := Hits(env, v, rules);
    AllReads(env, [], v.appliedRules, Begin(v), rules);
    assert [] + hits == hits;
    KeepsMocked(env, Begin(v), rules);
  }

  lemma {:induction false} KeepsMocked(env: Env, p: Loop, rules: seq<Rule>)
    ensures ApplyAll(env, p, rules).view.mocked == p.view.mocked
    decreases |rules|
  {
    hide ApplyOne;
    if rules != [] {
      if Fires(p.view, rules[0]) {
        KeepsResponse(env, p, rules[0]);
      }
      KeepsMocked(env, if Fires(p.view, rules[0]) then ApplyOne(env, p, rules[0]) else p, rules[1..]);
    }
  }

  // ---- what the operators do to the flow, and the reading of the response phase ----

  /** The header an operator sets on the request. */
  function HeaderSet(op: Op): Option<string> {
    match op
    case ReqType => Some("content-type")
    case Ua => Some("user-agent")
    case Referer => Some("referer")
    case _ => None
  }

  /** The last edit of a name. */
  function LastEdit(edits: seq<(string, string)>, name: string): Option<string> {
    if edits == [] then None
    else match LastEdit(edits[1..], name)
      case Some(v) => Some(v)
      case None => if Lower(edits[0].0) == Lower(name) then Some(edits[0].1) else None
  }

  /** After a header specification a name reads as its last edit says, absent when that is empty, and as before
      when there is none. */
  lemma {:induction false} EditedLaw(headers: Fields, edits: seq<(string, string)>, name: string)
    ensures HGet(Edited(headers, edits), name)
            == match LastEdit(edits, name)
               case Some(v) => if v == [] then None else Some(v)
               case None => HGet(headers, name)
    decreases |edits|
  {
    hide HGet, HSet, HDelete, Lower;
    if edits != [] {
      var e := edits[0];
      EditedLaw(if e.1 == [] then HDelete(headers, e.0) else HSet(headers, e.0, e.1), edits[1..], name);
      DeleteLaw(headers, e.0, name);
      SetLaw(headers, e.0, e.1, name);
    }
  }

  /** The headers of a mapped file each read as the last one of their name, over what was there before. */
  lemma {:induction false} SetEachLaw(headers: Fields, more: Fields, name: string)
    ensures HGet(SetEach(headers, more), name)
            == match LastEdit(more, name) case Some(v) => Some(v) case None => HGet(headers, name)
    decreases |more|
  {
    hide HGet, HSet, Lower;
    if more != [] {
      SetEachLaw(HSet(headers, more[0].0, more[0].1), more[1..], name);
      SetLaw(headers, more[0].0, more[0].1, name);
    }
  }

  /** One matched rule on the flow: the header operators leave their header with exactly the value, in any
      spelling, and every other header alone; only host, rewrite and the request operators touch the request at
      all, only highlight the color, and none the response. */
  lemma OperatorEffect(env: Env, v: View, r: Rule, other: string)
    ensures var w := OnFlow(env, v, r);
            w.response == v.response && w.appliedRules == v.appliedRules && w.mocked == v.mocked &&
            (HeaderSet(r.op).Some? ==>
               w.request == v.request.(headers := w.request.headers) &&
               HGet(w.request.headers, other)
               == if Lower(other) == Lower(HeaderSet(r.op).value) then Some(r.value)
                  else HGet(v.request.headers, other)) &&
            (r.op.Rewrite? && env.url(r.value).Some? ==>
               HGet(w.request.headers, other)
               == if Lower(other) == Lower("host") then Some(env.url(r.value).value.hostHeader)
                  else HGet(v.request.headers, other)) &&
            (w.color != v.color ==> r.op.Highlight?) &&
            (w.request.body != v.request.body ==> r.op.ReqReplace?) &&
            (w.request.headers != v.request.headers ==> r.op.ReqHeaders? || r.op.Rewrite? || HeaderSet(r.op).Some?) &&
            (w.request != v.request.(headers := w.request.headers, body := w.request.body) ==>
               r.op.Host? || r.op.Rewrite?)
  {
    hide HSet, HGet, Edited, Lower;
    if HeaderSet(r.op).Some? {
      SetLaw(v.request.headers, HeaderSet(r.op).value, r.value, other);
    }
    if r.op.Rewrite? && env.url(r.value).Some? {
      SetLaw(v.request.headers, "host", env.url(r.value).value.hostHeader, other);
    }
  }

  /** The rules that match in the response phase, in order, each on what the ones before made of the flow. */
  function ResponseHits(env: Env, v: View, rules: seq<Rule>): seq<Rule>
    decreases |rules|
  {
    if rules == [] then []
    else if rules[0].matches(v) then [rules[0]] + ResponseHits(env, OnResponse(env, v, rules[0]), rules[1..])
    else ResponseHits(env, v, rules[1..])
  }

  /** The last status asked for that is a number other than zero, else the one given. */
  function StatusAfter(env: Env, status: int, hits: seq<Rule>): int
    decreases |hits|
  {
    if hits == [] then status
    else StatusAfter(env, if hits[0].op.Status? then NumberOr(env, hits[0].value, status) else status, hits[1..])
  }

  /** One header edit of a response rule. */
  function ResponseEdit(env: Env, headers: Fields, r: Rule): Fields {
    if r.op.ResHeaders? then Edited(headers, env.spec(r.value))
    else if r.op.ResType? then HSet(headers, "content-type", r.value)
    else headers
  }

  function HeadersAfter(env: Env, headers: Fields, hits: seq<Rule>): Fields
    decreases |hits|
  {
    if hits == [] then headers else HeadersAfter(env, ResponseEdit(env, headers, hits[0]), hits[1..])
  }

  function BodyAfter(env: Env, body: Option<seq<byte>>, hits: seq<Rule>): Option<seq<byte>>
    decreases |hits|
  {
    if hits == [] then body
    else BodyAfter(env, if hits[0].op.ResReplace? then ReplaceBody(env, body, hits[0].value) else body, hits[1..])
  }

  function Note(op: Op): seq<string> {
    if op.ResHeaders? then ["resHeaders"] else if op.ResReplace? then ["resReplace"] else []
  }

  function Notes(hits: seq<Rule>): seq<string> {
    if hits == [] then [] else Note(hits[0].op) + Notes(hits[1..])
  }

  /** What the response phase amounts to, field by field. */
  function ReadAs(env: Env, v: View, hits: seq<Rule>): View
    requires v.response.Some?
  {
    var s := v.response.value;
    v.(response := Some(Response(StatusAfter(env, s.statusCode, hits), HeadersAfter(env, s.headers, hits),
                                 BodyAfter(env, s.body, hits))),
       appliedRules := v.appliedRules + Notes(hits))
  }

  /** The response phase read field by field: status, headers and body are each changed by their own operators
      alone, in the order of the rules that matched, two operators leave their names, and nothing else of the
      flow changes. */
  lemma {:induction false} ResponseReading(env: Env, v: View, rules: seq<Rule>)
    requires v.response.Some?
    ensures Responded(env, v, rules) == ReadAs(env, v, ResponseHits(env, v, rules))
    decreases |rules|
  {
    hide OnResponse, ReadAs;
    if rules == [] {
      NothingRead(env, v);
    } else if rules[0].matches(v) {
      var w := OnResponse(env, v, rules[0]);
      OnlyResponse(env, v, rules[0]);
      OneRead(env, v, rules[0], ResponseHits(env, w, rules[1..]));
      ResponseReading(env, w, rules[1..]);
    } else {
      ResponseReading(env, v, rules[1..]);
    }
  }

  lemma NothingRead(env: Env, v: View)
    requires v.response.Some?
    ensures ReadAs(env, v, []) == v
  {
    assert v.appliedRules + [] == v.appliedRules;
  }

  lemma OneRead(env: Env, v: View, r: Rule, rest: seq<Rule>)
    requires v.response.Some? && OnResponse(env, v, r).response.Some?
    ensures ReadAs(env, v, [r] + rest) == ReadAs(env, OnResponse(env, v, r), rest)
  {
    hide NumberOr, Edited, ReplaceBody, HSet;
    assert ([r] + rest)[1..] == rest;
    assert v.appliedRules + (Note(r.op) + Notes(rest)) == (v.appliedRules + Note(r.op)) + Notes(rest);
    assert v.appliedRules + [] == v.appliedRules;
  }

  /** The status is that of the last rule that asks for one with a number other than zero. */
  lemma {:induction false} LastStatusWins(env: Env, status: int, hits: seq<Rule>)
    ensures forall i | 0 <= i < |hits| && hits[i].op.Status? && NumberOr(env, hits[i].value, 0) != 0 &&
                       (forall j | i < j < |hits| && hits[j].op.Status? :: NumberOr(env, hits[j].value, 0) == 0) ::
              StatusAfter(env, status, hits) == NumberOr(env, hits[i].value, 0)
    ensures (forall i | 0 <= i < |hits| && hits[i].op.Status? :: NumberOr(env, hits[i].value, 0) == 0)
            ==> StatusAfter(env, status, hits) == status
    decreases |hits|
  {
    if hits != [] {
      var rest := hits[1..];
      assert forall i | 0 <= i < |rest| :: rest[i] == hits[i + 1];
      LastStatusWins(env, if hits[0].op.Status? then NumberOr(env, hits[0].value, status) else status, rest);
    }
  }
}
