/** compileFilter (src/rules/filter.ts): a parser object with a moving position that builds predicates
    on flows as closures. */
module FilterCompiler {
  import opened Prelude
  import opened Text
  import opened Numbers
  import opened FilterTokens
  import opened FilterGrammar

  // ---- the part of a flow that filters look at ----

  type HeaderList = seq<(string, string)>

  datatype FlowKind = Http | WebSocket

  datatype Response = Response(statusCode: nat, contentType: string, headers: HeaderList, body: string)

  /** Bodies are the decoded text, empty when there is none. */
  datatype Flow = Flow(url: string, prettyHost: string, verb: string, path: string, headers: HeaderList,
                       body: string, response: Option<Response>, failed: bool, marked: bool, kind: FlowKind)

  /** JavaScript's regular expressions: whether a pattern compiles, and the case-insensitive test. The
      asset pattern is fixed. */
  datatype Regex = Regex(compiles: string -> bool, test: (string, string) -> bool, asset: string -> bool)

  const SPECIAL: string := ".*+?^${}()|[]\\"

  function EscapeRe(s: string): string {
    if s == [] then [] else (if s[0] in SPECIAL then ['\\', s[0]] else [s[0]]) + EscapeRe(s[1..])
  }

  /** An empty argument matches everything; a pattern that does not compile is taken literally. */
  predicate Matches(re: Regex, arg: string, subject: string) {
    arg == [] || re.test(if re.compiles(arg) then arg else EscapeRe(arg), subject)
  }

  function HeaderText(headers: HeaderList): string {
    if headers == [] then []
    else headers[0].0 + ": " + headers[0].1 + if |headers| == 1 then [] else "\n" + HeaderText(headers[1..])
  }

  function ResponseHeaders(f: Flow): HeaderList {
    if f.response.Some? then f.response.value.headers else []
  }

  function ResponseBody(f: Flow): string {
    if f.response.Some? then f.response.value.body else []
  }

  /** The meaning of one atom on a flow; an unknown code holds of every flow. */
  predicate AtomHolds(re: Regex, code: string, arg: string, f: Flow) {
    match code
    case "u" => Matches(re, arg, f.url)
    case "d" => Matches(re, arg, f.prettyHost)
    case "m" => Matches(re, arg, f.verb)
    case "c" => f.response.Some? && arg <= Decimal(f.response.value.statusCode)
    case "t" => Matches(re, arg, if f.response.Some? then f.response.value.contentType else [])
    case "h" => Matches(re, arg, HeaderText(f.headers)) || Matches(re, arg, HeaderText(ResponseHeaders(f)))
    case "hq" => Matches(re, arg, HeaderText(f.headers))
    case "hs" => Matches(re, arg, HeaderText(ResponseHeaders(f)))
    case "b" => Matches(re, arg, f.body + "\n" + ResponseBody(f))
    case "bq" => Matches(re, arg, f.body)
    case "bs" => Matches(re, arg, ResponseBody(f))
    case "s" => f.response.Some?
    case "e" => f.failed
    case "a" => re.asset(f.path)
    case "marked" => f.marked
    case "websocket" => f.kind == WebSocket
    case "http" => f.kind == Http
    case _ => true
  }

  type Predicate = Flow -> bool

  /** Which atoms hold of a flow. */
  function Atoms(re: Regex, f: Flow): (string, string) -> bool {
    (code, arg) => AtomHolds(re, code, arg, f)
  }

  /** The closure decides the formula on every flow. */
  ghost predicate Decides(re: Regex, p: Predicate, g: Formula) {
    forall f :: p(f) == Holds(g, Atoms(re, f))
  }

  class Parser {
    const re: Regex
    const tokens: seq<Token>
    var pos: nat

    constructor (re: Regex, tokens: seq<Token>)
      ensures pos == 0 && this.re == re && this.tokens == tokens
    {
      this.re, this.tokens, this.pos := re, tokens, 0;
    }

    ghost predicate Valid()
      reads this
    {
      pos <= |tokens|
    }

    ghost function Rest(): seq<Token>
      reads this
      requires Valid()
    {
      tokens[pos..]
    }

    method ParseOr() returns (left: Predicate)
      requires Valid()
      modifies this`pos
      ensures Valid() && old(pos) <= pos
      ensures var r := FilterGrammar.ParseOr(old(Rest()));
              Rest() == r.rest && Decides(re, left, r.formula)
      decreases |tokens| - pos, 5
    {
      hide FilterGrammar.ParseAnd, Decides;
      left := ParseAnd();
      ghost var g := FilterGrammar.ParseAnd(old(Rest())).formula;
      while pos < |tokens| && tokens[pos] == Or
        invariant Valid() && old(pos) <= pos
        invariant OrTail(g, Rest()) == FilterGrammar.ParseOr(old(Rest()))
        invariant Decides(re, left, g)
        invariant old(pos) < |tokens| ==> old(pos) < pos
        decreases |tokens| - pos
      {
        assert Rest()[1..] == tokens[pos + 1..];
        ghost var right := FilterGrammar.ParseAnd(Rest()[1..]);
        pos := pos + 1;
        var r := ParseAnd();
        var l := left;
        left := (f: Flow) => l(f) || r(f);
        JoinDecides(re, l, r, left, g, right.formula, Disj(g, right.formula));
        g := Disj(g, right.formula);
      }
    }

    method ParseAnd() returns (left: Predicate)
      requires Valid()
      modifies this`pos
      ensures Valid() && old(pos) <= pos && (old(pos) < |tokens| ==> old(pos) < pos)
      ensures var r := FilterGrammar.ParseAnd(old(Rest()));
              Rest() == r.rest && Decides(re, left, r.formula)
      decreases |tokens| - pos, 3
    {
      hide FilterGrammar.ParseUnary, Decides;
      left := ParseUnary();
      ghost var g := FilterGrammar.ParseUnary(old(Rest())).formula;
      while true
        invariant Valid() && old(pos) <= pos && (old(pos) < |tokens| ==> old(pos) < pos)
        invariant AndTail(g, Rest()) == FilterGrammar.ParseAnd(old(Rest()))
        invariant Decides(re, left, g)
        decreases |tokens| - pos
      {
        if pos == |tokens| {
          break;
        }
        var t := tokens[pos];
        ghost var right;
        if t == And {
          assert Rest()[1..] == tokens[pos + 1..];
          right := FilterGrammar.ParseUnary(Rest()[1..]);
          pos := pos + 1;
        } else if t.Atom? || t == Not || t == Open {
          right := FilterGrammar.ParseUnary(Rest());
        } else {
          break;
        }
        var r := ParseUnary();
        var l := left;
        left := (f: Flow) => l(f) && r(f);
        JoinDecides(re, l, r, left, g, right.formula, Conj(g, right.formula));
        g := Conj(g, right.formula);
      }
    }

    method ParseUnary() returns (p: Predicate)
      requires Valid()
      modifies this`pos
      ensures Valid() && old(pos) <= pos && (old(pos) < |tokens| ==> old(pos) < pos)
      ensures var r := FilterGrammar.ParseUnary(old(Rest()));
              Rest() == r.rest && Decides(re, p, r.formula)
      decreases |tokens| - pos, 1
    {
      hide FilterGrammar.ParsePrimary;
      if pos < |tokens| && tokens[pos] == Not {
        assert Rest()[1..] == tokens[pos + 1..];
        pos := pos + 1;
        var inner := ParseUnary();
        p := (f: Flow) => !inner(f);
      } else {
        p := ParsePrimary();
      }
    }

    method ParsePrimary() returns (p: Predicate)
      requires Valid()
      modifies this`pos
      ensures Valid() && old(pos) <= pos && (old(pos) < |tokens| ==> old(pos) < pos)
      ensures var r := FilterGrammar.ParsePrimary(old(Rest()));
              Rest() == r.rest && Decides(re, p, r.formula)
      decreases |tokens| - pos, 0
    {
      hide FilterGrammar.ParseOr, AtomHolds;
      if pos == |tokens| {
        return (f: Flow) => true;
      }
      var t := tokens[pos];
      assert Rest()[1..] == tokens[pos + 1..];
      pos := pos + 1;
      if t == Open {
        p := ParseOr();
        if pos < |tokens| && tokens[pos] == Close {
          assert Rest()[1..] == tokens[pos + 1..];
          pos := pos + 1;
        }
      } else if t.Atom? {
        p := AtomPredicate(re, t.code, t.arg);
      } else {
        p := (f: Flow) => true;
      }
    }
  }

  /** The pattern is compiled once, with the literal text as fallback, and the code picks the closure that uses it. */
  method AtomPredicate(re: Regex, code: string, arg: string) returns (p: Predicate)
    ensures Decides(re, p, Test(code, arg))
  {
    hide EscapeRe, HeaderText;
    var test := PatternTest(re, arg);
    match code
    case "u" => p := (f: Flow) => test(f.url);
    case "d" => p := (f: Flow) => test(f.prettyHost);
    case "m" => p := (f: Flow) => test(f.verb);
    case "c" => p := (f: Flow) => f.response.Some? && arg <= Decimal(f.response.value.statusCode);
    case "t" => p := (f: Flow) => test(if f.response.Some? then f.response.value.contentType else []);
    case "h" => p := (f: Flow) => test(HeaderText(f.headers)) || test(HeaderText(ResponseHeaders(f)));
    case "hq" => p := (f: Flow) => test(HeaderText(f.headers));
    case "hs" => p := (f: Flow) => test(HeaderText(ResponseHeaders(f)));
    case "b" => p := (f: Flow) => test(f.body + "\n" + ResponseBody(f));
    case "bq" => p := (f: Flow) => test(f.body);
    case "bs" => p := (f: Flow) => test(ResponseBody(f));
    case "s" => p := (f: Flow) => f.response.Some?;
    case "e" => p := (f: Flow) => f.failed;
    case "a" => p := (f: Flow) => re.asset(f.path);
    case "marked" => p := (f: Flow) => f.marked;
    case "websocket" => p := (f: Flow) => f.kind == WebSocket;
    case "http" => p := (f: Flow) => f.kind == Http;
    case _ => p := (f: Flow) => true;
  }

  /** The test that the closures of one atom share. */
  method PatternTest(re: Regex, arg: string) returns (test: string -> bool)
    ensures forall subject :: test(subject) == Matches(re, arg, subject)
  {
    var compiled: Option<string> := None;
    if arg != [] {
      if re.compiles(arg) {
        compiled := Some(arg);
      } else {
        compiled := Some(EscapeRe(arg));
      }
    }
    test := (subject: string) => match compiled case Some(pattern) => re.test(pattern, subject) case None => true;
  }

  lemma JoinDecides(re: Regex, l: Predicate, r: Predicate, p: Predicate, gl: Formula, gr: Formula, g: Formula)
    requires Decides(re, l, gl) && Decides(re, r, gr)
    requires (g == Conj(gl, gr) && forall f :: p(f) == (l(f) && r(f))) ||
             (g == Disj(gl, gr) && forall f :: p(f) == (l(f) || r(f)))
    ensures Decides(re, p, g)
  {}

  method CompileFilter(re: Regex, expr: string) returns (p: Predicate)
    ensures Decides(re, p, Compile(expr))
  {
    hide Tokens, Trim, ParseOr;
    var trimmed := Trim(expr);
    if trimmed == [] {
      return (f: Flow) => true;
    }
    var tokens := Tokenize(trimmed);
    if tokens == [] {
      return (f: Flow) => true;
    }
    var parser := new Parser(re, tokens);
    assert parser.tokens[0..] == tokens;
    p := parser.ParseOr();
  }

  /** Compiling the printed form of a filter gives a predicate that agrees with the filter on every flow. */
  method CompileExpr(re: Regex, e: Expr, gaps: seq<string>) returns (p: Predicate)
    requires WellFormed(e)
    requires |gaps| == |Print(e, InOr)| + 1 && ValidLayout(Print(e, InOr), gaps)
    ensures forall f :: p(f) == Meaning(e, Atoms(re, f))
  {
    hide WellFormed, ValidLayout, Print, Render, Compile, Meaning, Holds;
    p := CompileFilter(re, Render(Print(e, InOr), gaps));
    forall f
      ensures p(f) == Meaning(e, Atoms(re, f))
    {
      CompilePrinted(e, gaps, Atoms(re, f));
    }
  }
}
