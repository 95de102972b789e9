/** What the rules of the request phase make of a request (src/rules/engine.ts), part by part, read off the rules that
    fired: for most parts the last one that speaks of it decides. */
module RuleOutcomes {
  import opened Prelude
  import opened Text
  import opened Headers
  import opened FlowModel
  import opened Rules

  /** The rules that fired, in order. */
  function Fired(hits: seq<Hit>): (r: seq<Rule>)
    ensures |r| == |hits|
  {
    seq(|hits|, i requires 0 <= i < |hits| => hits[i].rule)
  }

  /** Host and port after these rules: those of the last host rule, whose port falls back on the one before it, or of
      the last rewrite to a URL. */
  function AddressBy(env: Env, start: (string, int), fired: seq<Rule>): (string, int) {
    if fired == [] then start
    else
      var n := |fired| - 1;
      var before := AddressBy(env, start, fired[..n]);
      match fired[n].op
      case Host => env.hostPort(fired[n].value, before.1)
      case Rewrite => (match env.url(fired[n].value) case Some(u) => (u.host, u.port) case None => before)
      case _ => before
  }

  /** The scheme of the last rewrite to a URL. */
  function SchemeBy(env: Env, start: string, fired: seq<Rule>): string {
    if fired == [] then start
    else
      var n := |fired| - 1;
      if fired[n].op == Rewrite && env.url(fired[n].value).Some? then env.url(fired[n].value).value.scheme
      else SchemeBy(env, start, fired[..n])
  }

  /** The path of the last rewrite: that of its URL, or the value itself when it is none. */
  function PathBy(env: Env, start: string, fired: seq<Rule>): string {
    if fired == [] then start
    else
      var n := |fired| - 1;
      if fired[n].op == Rewrite
      then match env.url(fired[n].value) case Some(u) => u.path case None => fired[n].value
      else PathBy(env, start, fired[..n])
  }

  /** The body put through every substitution, in order. */
  function BodyBy(env: Env, start: Option<seq<byte>>, fired: seq<Rule>): Option<seq<byte>> {
    if fired == [] then start
    else
      var n := |fired| - 1;
      match BodyBy(env, start, fired[..n])
      case None => None
      case Some(b) => Some(if fired[n].op == ReqReplace then env.replace(b, fired[n].value) else b)
  }

  /** The color of the last highlight, yellow when it names none. */
  function ColorBy(start: string, fired: seq<Rule>): string {
    if fired == [] then start
    else
      var n := |fired| - 1;
      if fired[n].op == Highlight then (if fired[n].value == "" then "yellow" else fired[n].value)
      else ColorBy(start, fired[..n])
  }

  /** What one rule says of a header; Some(None) is that it be absent. */
  function Says(env: Env, r: Rule, name: string): Option<Option<string>> {
    match r.op
    case ReqHeaders =>
      (match LastEdit(env.spec(r.value), name)
       case Some(x) => Some(if x == "" then None else Some(x))
       case None => None)
    case ReqType => if Lower(name) == "content-type" then Some(Some(r.value)) else None
    case Ua => if Lower(name) == "user-agent" then Some(Some(r.value)) else None
    case Referer => if Lower(name) == "referer" then Some(Some(r.value)) else None
    case Rewrite =>
      if env.url(r.value).Some? && Lower(name) == "host" then Some(Some(env.url(r.value).value.hostHeader)) else None
    case _ => None
  }

  /** A header as the last rule that speaks of it says. */
  function HeaderBy(env: Env, start: Option<string>, fired: seq<Rule>, name: string): Option<string> {
    if fired == [] then start
    else
      var n := |fired| - 1;
      match Says(env, fired[n], name)
      case Some(x) => x
      case None => HeaderBy(env, start, fired[..n], name)
  }

  /** The flow is what these rules make of the one at the start. */
  ghost predicate Outcome(env: Env, v: View, fired: seq<Rule>, w: View, name: string) {
    (w.request.host, w.request.port) == AddressBy(env, (v.request.host, v.request.port), fired) &&
    w.request.scheme == SchemeBy(env, v.request.scheme, fired) &&
    w.request.path == PathBy(env, v.request.path, fired) &&
    w.request.body == BodyBy(env, v.request.body, fired) &&
    HGet(w.request.headers, name) == HeaderBy(env, HGet(v.request.headers, name), fired, name) &&
    w.color == ColorBy(v.color, fired) && w.response == v.response
  }

  lemma Names()
    ensures Lower("content-type") == "content-type" && Lower("user-agent") == "user-agent"
    ensures Lower("referer") == "referer" && Lower("host") == "host"
  {}

  lemma HeaderStep(env: Env, v: View, r: Rule, name: string)
    ensures HGet(OnFlow(env, v, r).request.headers, name)
            == match Says(env, r, name) case Some(x) => x case None => HGet(v.request.headers, name)
  {
    hide HSet, HGet, Edited, Lower, LastEdit;
    Names();
    var headers := v.request.headers;
    match r.op
    case ReqHeaders => EditedLaw(headers, env.spec(r.value), name);
    case ReqType => SetLaw(headers, "content-type", r.value, name);
    case Ua => SetLaw(headers, "user-agent", r.value, name);
    case Referer => SetLaw(headers, "referer", r.value, name);
    case Rewrite =>
      if env.url(r.value).Some? {
        SetLaw(headers, "host", env.url(r.value).value.hostHeader, name);
      }
    case _ =>
  }

  lemma AddressStep(env: Env, start: (string, int), fired: seq<Rule>, w: View, r: Rule)
    requires (w.request.host, w.request.port) == AddressBy(env, start, fired)
    ensures var q := OnFlow(env, w, r).request; (q.host, q.port) == AddressBy(env, start, fired + [r])
  {
    hide HSet, Edited;
    assert (fired + [r])[..|fired|] == fired;
  }

  lemma TargetStep(env: Env, scheme: string, path: string, fired: seq<Rule>, w: View, r: Rule)
    requires w.request.scheme == SchemeBy(env, scheme, fired) && w.request.path == PathBy(env, path, fired)
    ensures var q := OnFlow(env, w, r).request;
            q.scheme == SchemeBy(env, scheme, fired + [r]) && q.path == PathBy(env, path, fired + [r])
  {
    hide HSet, Edited;
    assert (fired + [r])[..|fired|] == fired;
  }

  lemma BodyStep(env: Env, start: Option<seq<byte>>, fired: seq<Rule>, w: View, r: Rule)
    requires w.request.body == BodyBy(env, start, fired)
    ensures OnFlow(env, w, r).request.body == BodyBy(env, start, fired + [r])
  {
    hide HSet, Edited;
    assert (fired + [r])[..|fired|] == fired;
  }

  lemma ColorStep(env: Env, start: string, fired: seq<Rule>, w: View, r: Rule)
    requires w.color == ColorBy(start, fired)
    ensures OnFlow(env, w, r).color == ColorBy(start, fired + [r]) && OnFlow(env, w, r).response == w.response
  {
    hide HSet, Edited;
    assert (fired + [r])[..|fired|] == fired;
  }

  /** One more rule. */
  lemma OutcomeStep(env: Env, v: View, fired: seq<Rule>, w: View, r: Rule, name: string)
    requires Outcome(env, v, fired, w, name)
    ensures Outcome(env, v, fired + [r], OnFlow(env, w, r), name)
  {
    hide HGet, OnFlow, Says, AddressBy, SchemeBy, PathBy, BodyBy, ColorBy;
    assert (fired + [r])[..|fired|] == fired;
    AddressStep(env, (v.request.host, v.request.port), fired, w, r);
    TargetStep(env, v.request.scheme, v.request.path, fired, w, r);
    BodyStep(env, v.request.body, fired, w, r);
    ColorStep(env, v.color, fired, w, r);
    HeaderStep(env, w, r, name);
  }

  lemma SameOutcome(env: Env, v: View, fired: seq<Rule>, w: View, x: View, name: string)
    requires Outcome(env, v, fired, w, name)
    requires x.request == w.request && x.color == w.color && x.response == w.response
    ensures Outcome(env, v, fired, x, name)
  {}

  lemma {:induction false} AllOutcomes(env: Env, v: View, fired: seq<Rule>, p: Loop, rules: seq<Rule>, name: string)
    requires Outcome(env, v, fired, p.view, name)
    ensures Outcome(env, v, fired + Fired(Hits(env, p.view, rules)), ApplyAll(env, p, rules).view, name)
    decreases |rules|
  {
    hide Outcome, ApplyOne, OnFlow;
    if rules == [] {
      assert fired + Fired(Hits(env, p.view, rules)) == fired;
    } else if Fires(p.view, rules[0]) {
      var r := rules[0];
      var q := ApplyOne(env, p, r);
      var marked := p.view.(appliedRules := p.view.appliedRules + [OpName(r.op)]);
      OneFlow(env, p, r);
      SameOutcome(env, v, fired, p.view, marked, name);
      OutcomeStep(env, v, fired, marked, r, name);
      AllOutcomes(env, v, fired + [r], q, rules[1..], name);
      assert fired + Fired(Hits(env, p.view, rules)) == fired + [r] + Fired(Hits(env, q.view, rules[1..]));
    } else {
      AllOutcomes(env, v, fired, p, rules[1..], name);
    }
  }

  /** Over every rule list: host, port, scheme, path, body, every header and the color of the flow are what the rules
      that fired say, and the response is untouched. */
  lemma RequestOutcome(env: Env, v: View, rules: seq<Rule>, name: string)
    ensures Outcome(env, v, Fired(Hits(env, v, rules)), Requested(env, v, rules).0, name)
  {
    hide Outcome, ApplyAll, Hits;
    var p := Begin(v);
    assert Outcome(env, v, [], v, name) by { NoRules(env, v, name); }
    AllOutcomes(env, v, [], p, rules, name);
    assert [] + Fired(Hits(env, v, rules)) == Fired(Hits(env, v, rules));
    var w := ApplyAll(env, p, rules).view;
    SameOutcome(env, v, Fired(Hits(env, v, rules)), w, Requested(env, v, rules).0, name);
  }

  lemma NoRules(env: Env, v: View, name: string)
    ensures Outcome(env, v, [], v, name)
  {
    hide HGet;
  }

  /** The name that each operator leaves on the flow. */
  lemma AppliedNames()
    ensures OpName(Host) == "host" && OpName(Rewrite) == "rewrite" && OpName(Redirect) == "redirect"
    ensures OpName(ReqHeaders) == "reqheaders" && OpName(ReqType) == "reqtype" && OpName(Ua) == "ua"
    ensures OpName(Referer) == "referer" && OpName(ReqReplace) == "reqreplace" && OpName(Delay) == "delay"
    ensures OpName(Block) == "block" && OpName(Abort) == "abort" && OpName(File) == "file" && OpName(Dir) == "dir"
    ensures OpName(Highlight) == "highlight" && OpName(Mock) == "mock" && OpName(ResBody) == "resbody"
    ensures OpName(Status) == "status" && OpName(ResHeaders) == "resheaders" && OpName(ResType) == "restype"
    ensures OpName(ResReplace) == "resreplace"
  {}

  /** One rule alone, when it matches: what it asks of the handler. A number that is zero or none counts as no delay,
      and as the status 200. */
  lemma OneRule(env: Env, v: View, r: Rule)
    requires r.matches(v)
    ensures var d := Requested(env, v, [r]).1;
            var n := match env.number(r.value) case Some(x) => x case None => 0;
            (r.op == Redirect ==> d == Directive(false, 0, Some(MockResponse(302, [("location", r.value)], [])))) &&
            (r.op == Status ==> d == Directive(false, 0, Some(MockResponse(if n == 0 then 200 else n, [], [])))) &&
            (r.op == Delay ==> d == Directive(false, if n > 0 then n else 0, None)) &&
            (r.op == Block || r.op == Abort ==> d == Directive(true, 0, None)) &&
            (r.op == Dir && env.dir(r.value, v.request.path, r.pattern).None? ==>
               d == Directive(false, 0, Some(MockResponse(404, [], env.dirMissing)))) &&
            (r.op == File && env.file(r.value).None? ==> d == Directive(false, 0, None)) &&
            (r.op == File && env.file(r.value).Some? ==>
               d == Directive(false, 0, Some(MockResponse(200, SetEach([], env.file(r.value).value.headers),
                                                          env.file(r.value).value.body)))) &&
            (r.op == Mock || r.op == ResBody ==>
               var m := env.mockBody(r.value);
               var typed := m.contentType.Some? && m.contentType.value != "";
               var headers := if typed then [("content-type", m.contentType.value)] else [];
               d == Directive(false, 0, Some(MockResponse(200, headers, m.body)))) &&
            (r.op in {Host, Rewrite, ReqHeaders, ReqType, Ua, Referer, ReqReplace, Highlight, ResReplace, ResType} ==>
               d == Directive(false, 0, None))
  {
    hide OnFlow, SetEach, Edited;
    assert [r][1..] == [];
    assert HSet([], "location", r.value) == [("location", r.value)];
    assert forall t: string :: HSet([], "content-type", t) == [("content-type", t)];
    assert !HHas([], "content-type");
    assert ApplyAll(env, Begin(v), [r])
        == ApplyAll(env, if Fires(v, r) then ApplyOne(env, Begin(v), r) else Begin(v), []);
  }

  /** A rule fires when it matches the flow as the rules before it left it, and its operator is one that is known. */
  lemma {:induction false} FiredIff(env: Env, v: View, before: seq<Rule>, r: Rule)
    ensures var hits := Hits(env, v, before);
            var w := ApplyAll(env, Begin(v), before).view;
            Hits(env, v, before + [r]) == hits + if r.matches(w) && !r.op.Unknown? then [Hit(r, w)] else []
  {
    FiredNext(env, Begin(v), before, r);
  }

  lemma {:induction false} FiredNext(env: Env, p: Loop, before: seq<Rule>, r: Rule)
    ensures var w := ApplyAll(env, p, before).view;
            Hits(env, p.view, before + [r])
            == Hits(env, p.view, before) + if r.matches(w) && !r.op.Unknown? then [Hit(r, w)] else []
    decreases |before|
  {
    hide ApplyOne, OnFlow;
    if before == [] {
      assert before + [r] == [r] && [r][1..] == [];
    } else {
      assert (before + [r])[1..] == before[1..] + [r] && (before + [r])[0] == before[0];
      if Fires(p.view, before[0]) {
        OneFlow(env, p, before[0]);
        FiredNext(env, ApplyOne(env, p, before[0]), before[1..], r);
      } else {
        FiredNext(env, p, before[1..], r);
      }
    }
  }

  /** One rule alone in the response phase, when it matches: which part it changes, how, and the name it leaves. A
      status that is zero or no number leaves the old one. */
  lemma OneResponseRule(env: Env, v: View, r: Rule, name: string)
    requires v.response.Some? && r.matches(v)
    ensures var w := Responded(env, v, [r]);
            var n := match env.number(r.value) case Some(x) => x case None => 0;
            w.response.Some? &&
            w == v.(response := w.response, appliedRules := w.appliedRules) &&
            var (before, s) := (v.response.value, w.response.value);
            s.statusCode == (if r.op == Status && n != 0 then n else before.statusCode) &&
            s.body == (if r.op == ResReplace && before.body.Some? then Some(env.replace(before.body.value, r.value))
                       else before.body) &&
            HGet(s.headers, name)
            == (if r.op == ResType && Lower(name) == "content-type" then Some(r.value)
                else if r.op == ResHeaders && LastEdit(env.spec(r.value), name).Some?
                then (if LastEdit(env.spec(r.value), name) == Some("") then None
                      else LastEdit(env.spec(r.value), name))
                else HGet(before.headers, name)) &&
            w.appliedRules == v.appliedRules + (if r.op == ResHeaders then ["resHeaders"]
                                                else if r.op == ResReplace then ["resReplace"] else [])
  {
    hide HGet, HSet, Edited, LastEdit, Lower;
    Names();
    assert [r][1..] == [];
    assert Responded(env, v, [r]) == Responded(env, OnResponse(env, v, r), []);
    assert v.appliedRules + [] == v.appliedRules;
    EditedLaw(v.response.value.headers, env.spec(r.value), name);
    SetLaw(v.response.value.headers, "content-type", r.value, name);
  }
}
