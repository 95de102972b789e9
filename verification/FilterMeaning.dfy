/** What the codes of the filter language mean (src/rules/filter.ts), said of the closures that compileFilter returns:
    which part of a flow each code looks at, and what it finds there. */
module FilterMeaning {
  import opened Prelude
  import opened Text
  import opened Numbers
  import opened FilterTokens
  import opened FilterGrammar
  import opened FilterCompiler

  // ---- the text of one atom ----

  const SEARCHES: seq<string> := ["u", "d", "m", "c", "t", "h", "hq", "hs", "b", "bq", "bs"]
  const FLAGS: seq<string> := ["q", "s", "a", "e", "marked", "websocket", "http", "tcp"]

  /** A code and a quoted argument compile to the test of that code with that argument. */
  lemma QuotedAtom(code: string, arg: string)
    requires code in SEARCHES && '\"' !in arg
    ensures Compile("~" + code + " \"" + arg + "\"") == Test(code, arg)
  {
    hide Tokens, Trim;
    var tail := " \"" + arg + "\"";
    var text := "~" + code + " \"" + arg + "\"";
    assert text == "~" + (code + tail);
    assert text[0] == '~' && text[|text| - 1] == '\"';
    TrimNothing(text);
    SearchCode(code, tail);
    QuotedArg(code, arg);
    assert text[1..] == code + tail;
    OneAtom(text, code, arg);
  }

  /** A code without argument compiles to the test of that code. */
  lemma FlagAtom(code: string)
    requires code in FLAGS
    ensures Compile("~" + code) == Test(code, "")
  {
    hide Tokens, Trim;
    var text := "~" + code;
    FlagCode(code);
    assert text[1..] == code;
    TrimNothing(text);
    OneAtom(text, code, "");
  }

  /** The argument may go without quotes when it is printable ASCII, begins with no quote and holds no &, vertical bar
      or closing parenthesis. */
  lemma BareAtom(code: string, arg: string)
    requires code in SEARCHES && arg != [] && arg[0] != '\"' && arg[0] != '\''
    requires forall i | 0 <= i < |arg| :: BareChar(arg[i])
    ensures Compile("~" + code + " " + arg) == Test(code, arg)
  {
    hide Tokens, Trim, IsSpace, SEARCHES;
    var tail := " " + arg;
    var text := "~" + code + " " + arg;
    assert text == "~" + (code + tail);
    assert text[|text| - 1] == arg[|arg| - 1];
    BareCharStays(arg[|arg| - 1]);
    TildeIsNoSpace();
    TrimNothing(text);
    SearchCode(code, tail);
    BareArg(code, arg);
    assert text[1..] == code + tail;
    OneAtom(text, code, arg);
  }

  /** Quoted text alone is a search in the URL. */
  lemma NakedAtom(arg: string)
    requires '\"' !in arg
    ensures Compile("\"" + arg + "\"") == Test("u", arg)
  {
    hide Tokens, Trim, ReadArg, IsSpace;
    var text := "\"" + arg + "\"";
    QuoteStays();
    TrimNothing(text);
    TokensStep(text);
    NakedArg(arg);
    NoTokens();
    assert [Atom("u", arg)] + [] == [Atom("u", arg)];
    OneTest("u", arg);
  }

  lemma QuoteStays()
    ensures !IsSpace('\"') && !IsOperator('\"')
  {}

  lemma NakedArg(arg: string)
    requires '\"' !in arg
    ensures ReadArg("\"" + arg + "\"") == Arg(arg, "")
  {
    var text := "\"" + arg + "\"";
    assert text[1..] == arg + "\"";
    QuotedRun(arg);
    assert text[1..1 + |arg|] == arg && text[|arg| + 2..] == "";
  }

  predicate BareChar(c: char) {
    '!' <= c <= '~' && c != '&' && c != '|' && c != ')'
  }

  lemma BareCharStays(c: char)
    requires BareChar(c)
    ensures !IsSpace(c) && !EndsBare(c)
  {}

  lemma BareArg(code: string, arg: string)
    requires NeedsArg(code) && arg != [] && arg[0] != '\"' && arg[0] != '\''
    requires forall i | 0 <= i < |arg| :: BareChar(arg[i])
    ensures AtomArg(code, " " + arg) == Arg(arg, "")
  {
    var s := " " + arg;
    BareCharStays(arg[0]);
    assert s[1..] == arg && IsSpace(' ');
    assert TrimLeft(s) == arg;
    BareRun(arg);
  }

  lemma {:induction false} BareRun(arg: string)
    requires forall i | 0 <= i < |arg| :: BareChar(arg[i])
    ensures BareLength(arg) == |arg|
    decreases |arg|
  {
    if arg != [] {
      BareCharStays(arg[0]);
      BareRun(arg[1..]);
    }
  }

  lemma TrimNothing(s: string)
    requires s != [] && !IsSpace(s[0]) && !IsSpace(s[|s| - 1])
    ensures Trim(s) == s
  {}

  lemma {:induction false} LettersOf(code: string, rest: string)
    requires forall i | 0 <= i < |code| :: 'a' <= code[i] <= 'z'
    requires rest == [] || !('a' <= rest[0] <= 'z')
    ensures LettersLength(code + rest) == |code|
    decreases |code|
  {
    var s := code + rest;
    if code == [] {
      assert s == rest;
    } else {
      assert s[0] == code[0] && s[1..] == code[1..] + rest;
      LettersOf(code[1..], rest);
    }
  }

  lemma SearchCode(code: string, rest: string)
    requires code in SEARCHES && rest != [] && rest[0] == ' '
    ensures LettersLength(code + rest) == |code| && NeedsArg(code)
  {
    LettersOf(code, rest);
  }

  lemma FlagCode(code: string)
    requires code in FLAGS
    ensures LettersLength(code) == |code| && !NeedsArg(code)
    ensures code != [] && !IsSpace(code[|code| - 1])
    ensures AtomArg(code, "") == Arg("", "")
  {
    hide LettersLength, NeedsArg, FLAGS;
    FlagLetters(code);
    LettersOf(code, "");
    assert code + "" == code;
    LetterIsNoSpace(code[|code| - 1]);
  }

  lemma LetterIsNoSpace(c: char)
    requires 'a' <= c <= 'z'
    ensures !IsSpace(c)
  {}

  lemma FlagLetters(code: string)
    requires code in FLAGS
    ensures code != [] && forall i | 0 <= i < |code| :: 'a' <= code[i] <= 'z'
    ensures !NeedsArg(code)
  {}

  lemma QuotedArg(code: string, arg: string)
    requires NeedsArg(code) && '\"' !in arg
    ensures AtomArg(code, " \"" + arg + "\"") == Arg(arg, "")
  {
    var quoted := "\"" + arg + "\"";
    var s := " \"" + arg + "\"";
    assert s == " " + quoted;
    assert s[1..] == quoted && IsSpace(' ') && !IsSpace('\"');
    assert TrimLeft(s) == quoted;
    assert quoted[1..] == arg + "\"";
    QuotedRun(arg);
    assert quoted[1..1 + |arg|] == arg && quoted[|arg| + 2..] == "";
  }

  lemma {:induction false} QuotedRun(arg: string)
    requires '\"' !in arg
    ensures QuotedLength(arg + "\"", '\"') == |arg|
    decreases |arg|
  {
    var s := arg + "\"";
    if arg != [] {
      assert s[0] == arg[0] && s[1..] == arg[1..] + "\"";
      QuotedRun(arg[1..]);
    }
  }

  lemma OneAtom(text: string, code: string, arg: string)
    requires text != [] && text[0] == '~' && Trim(text) == text
    requires LettersLength(text[1..]) == |code| && text[1..1 + |code|] == code
    requires AtomArg(code, text[1 + |code|..]) == Arg(arg, "")
    ensures Compile(text) == Test(code, arg)
  {
    hide IsSpace, AtomArg, LettersLength, Trim, Tokens;
    assert !IsSpace('~') by { TildeIsNoSpace(); }
    TokensStep(text);
    NoTokens();
    var ts := [Atom(code, arg)];
    assert ts + [] == ts && Tokens(text) == ts;
    OneTest(code, arg);
  }

  lemma OneTest(code: string, arg: string)
    ensures ParseOr([Atom(code, arg)]) == Read(Test(code, arg), [])
  {
    var ts := [Atom(code, arg)];
    assert ts[1..] == [];
    assert ParseUnary(ts) == Read(Test(code, arg), []);
    assert AndTail(Test(code, arg), []) == Read(Test(code, arg), []);
    assert ParseAnd(ts) == Read(Test(code, arg), []);
  }

  lemma TildeIsNoSpace()
    ensures !IsSpace('~')
  {}

  // ---- which part of a flow a code looks at ----

  /** u, d and m each look at one field, hq and bq at the headers and the body of the request: nothing else of the
      flow matters to them, and so nothing of the response. */
  lemma RequestCodes(re: Regex, p: Predicate, code: string, arg: string, f: Flow, g: Flow)
    requires Decides(re, p, Test(code, arg))
    requires (code == "u" && f.url == g.url) || (code == "d" && f.prettyHost == g.prettyHost) ||
             (code == "m" && f.verb == g.verb) || (code == "hq" && f.headers == g.headers) ||
             (code == "bq" && f.body == g.body) || (code == "a" && f.path == g.path)
    ensures p(f) == p(g)
  {
    hide Matches, HeaderText;
  }

  /** hs, bs, t, c and s look at the response only: at its headers, its body, its content type, its status, and at
      whether there is one. Without a response, hs, bs and t see an empty text, and c and s do not hold. */
  lemma ResponseCodes(re: Regex, p: Predicate, code: string, arg: string, f: Flow, g: Flow)
    requires Decides(re, p, Test(code, arg))
    requires f.response.Some? <==> g.response.Some?
    requires f.response.Some? ==>
               var x, y := f.response.value, g.response.value;
               (code == "hs" && x.headers == y.headers) || (code == "bs" && x.body == y.body) ||
               (code == "t" && x.contentType == y.contentType) || (code == "c" && x.statusCode == y.statusCode) ||
               code == "s"
    requires code in ["hs", "bs", "t", "c", "s"]
    ensures p(f) == p(g)
    ensures f.response.None? && (code == "c" || code == "s") ==> !p(f)
  {
    hide Matches, HeaderText;
  }

  /** h holds when hq or hs does. */
  lemma EitherHeader(re: Regex, any: Predicate, request: Predicate, response: Predicate, arg: string, f: Flow)
    requires Decides(re, any, Test("h", arg)) && Decides(re, request, Test("hq", arg)) &&
             Decides(re, response, Test("hs", arg))
    ensures any(f) <==> request(f) || response(f)
  {
    hide Matches, HeaderText;
  }

  /** s, e, marked, websocket and http are fields of the flow; q, tcp and any code that is not one of the language hold
      of every flow. */
  lemma FlagCodes(re: Regex, p: Predicate, code: string, arg: string, f: Flow)
    requires Decides(re, p, Test(code, arg))
    ensures code == "s" ==> (p(f) <==> f.response.Some?)
    ensures code == "e" ==> (p(f) <==> f.failed)
    ensures code == "marked" ==> (p(f) <==> f.marked)
    ensures code == "websocket" ==> (p(f) <==> f.kind == WebSocket)
    ensures code == "http" ==> (p(f) <==> f.kind == Http)
    ensures code == "a" ==> (p(f) <==> re.asset(f.path))
    ensures code !in SEARCHES && code !in ["s", "a", "e", "marked", "websocket", "http"] ==> p(f)
  {
    hide Matches, HeaderText;
  }

  /** An empty argument finds everything, c apart from flows without a response. */
  lemma EmptyArgument(re: Regex, p: Predicate, code: string, f: Flow)
    requires Decides(re, p, Test(code, "")) && code in SEARCHES
    ensures p(f) <==> code != "c" || f.response.Some?
  {
    hide HeaderText;
  }

  // ---- the status ----

  /** The text of a three-digit status finds exactly that status, and one digit the statuses that begin with it. */
  lemma StatusCode(re: Regex, p: Predicate, n: nat, f: Flow)
    requires f.response.Some? ==> 100 <= f.response.value.statusCode <= 999
    ensures 100 <= n <= 999 && Decides(re, p, Test("c", Decimal(n))) ==>
              (p(f) <==> f.response.Some? && f.response.value.statusCode == n)
    ensures 1 <= n <= 9 && Decides(re, p, Test("c", Decimal(n))) ==>
              (p(f) <==> f.response.Some? && f.response.value.statusCode / 100 == n)
  {
    hide Decimal, Matches, HeaderText;
    if f.response.Some? {
      var m := f.response.value.statusCode;
      ThreeDigits(m);
      if 100 <= n <= 999 {
        ThreeDigits(n);
        SameNumber(m, n);
        assert Decimal(n) <= Decimal(m) ==> Decimal(m)[..3] == Decimal(m);
      } else if 1 <= n <= 9 {
        OneDigit(n);
        DigitsDiffer(n, m / 100);
        assert Decimal(n) <= Decimal(m) <==> Decimal(n)[0] == Decimal(m)[0];
      }
    }
  }

  lemma ThreeDigits(m: nat)
    requires 100 <= m <= 999
    ensures Decimal(m) == [Digit(m / 100), Digit(m / 10 % 10), Digit(m % 10)]
  {
    hide Digit;
    assert m / 10 / 10 == m / 100;
    assert InBase(m / 100, 10) == [Digit(m / 100)];
    assert InBase(m / 10, 10) == [Digit(m / 100)] + [Digit(m / 10 % 10)];
  }

  lemma OneDigit(n: nat)
    requires n <= 9
    ensures Decimal(n) == [Digit(n)]
  {}

  lemma DigitsDiffer(m: nat, n: nat)
    requires m <= 9 && n <= 9
    ensures Digit(m) == Digit(n) <==> m == n
  {
    DigitReads(m);
    DigitReads(n);
  }

  lemma SameNumber(m: nat, n: nat)
    ensures Decimal(m) == Decimal(n) <==> m == n
  {
    InBaseReads(m, 10);
    InBaseReads(n, 10);
  }

  // ---- searching for text ----

  predicate FoundAt(x: string, s: string, i: nat)
    requires i + |x| <= |s|
  {
    Lower(s[i..i + |x|]) == Lower(x)
  }

  /** The text occurs, in any spelling. */
  predicate Finds(x: string, s: string) {
    exists i | 0 <= i <= |s| - |x| :: FoundAt(x, s, i)
  }

  const METACHARACTERS: set<char> := {'.', '*', '+', '?', '^', '$', '{', '}', '(', ')', '|', '[', ']', '\\'}

  /** The text that a pattern of ordinary characters and escaped metacharacters stands for. */
  function Literal(pattern: string): Option<string> {
    if pattern == [] then Some([])
    else if pattern[0] == '\\' then
      if |pattern| > 1 && pattern[1] in METACHARACTERS then Prepend(pattern[1], Literal(pattern[2..])) else None
    else if pattern[0] in METACHARACTERS then None
    else Prepend(pattern[0], Literal(pattern[1..]))
  }

  function Prepend(c: char, rest: Option<string>): Option<string> {
    match rest case Some(s) => Some([c] + s) case None => None
  }

  /** Of regular expressions no more is assumed than that such a pattern finds its text, in any spelling. */
  ghost predicate FindsText(re: Regex) {
    forall pattern, s | Literal(pattern).Some? :: re.test(pattern, s) <==> Finds(Literal(pattern).value, s)
  }

  /** Escaping keeps every character and leaves no metacharacter. */
  lemma {:induction false} EscapedStandsFor(x: string)
    ensures Literal(EscapeRe(x)) == Some(x)
    decreases |x|
  {
    hide METACHARACTERS;
    if x != [] {
      EscapedStandsFor(x[1..]);
      Special(x[0]);
      var e := EscapeRe(x);
      if x[0] in SPECIAL {
        assert e[0] == '\\' && e[1] == x[0] && e[2..] == EscapeRe(x[1..]);
      } else {
        assert e[0] == x[0] && e[1..] == EscapeRe(x[1..]);
      }
      assert [x[0]] + x[1..] == x;
    }
  }

  lemma Special(c: char)
    ensures c in SPECIAL <==> c in METACHARACTERS
    ensures '\\' in METACHARACTERS
  {}

  lemma {:induction false} OrdinaryStandsFor(x: string)
    requires forall c | c in x :: c !in METACHARACTERS
    ensures Literal(x) == Some(x)
    decreases |x|
  {
    hide METACHARACTERS;
    if x != [] {
      Special(x[0]);
      OrdinaryStandsFor(x[1..]);
      assert [x[0]] + x[1..] == x;
    }
  }

  /** A text without metacharacters, or one that is no regular expression: either way it is searched for as it is. */
  predicate Verbatim(re: Regex, x: string) {
    x != [] && (re.compiles(x) ==> forall c | c in x :: c !in METACHARACTERS)
  }

  lemma VerbatimFinds(re: Regex, x: string, s: string)
    requires FindsText(re) && Verbatim(re, x)
    ensures Matches(re, x, s) <==> Finds(x, s)
  {
    hide METACHARACTERS, Literal, EscapeRe, Finds;
    if re.compiles(x) {
      OrdinaryStandsFor(x);
    } else {
      EscapedStandsFor(x);
    }
  }

  /** u, d, m and t find a text in the URL, the host, the method and the content type, bq and bs in the bodies. */
  lemma TextCodes(re: Regex, p: Predicate, code: string, x: string, f: Flow)
    requires FindsText(re) && Verbatim(re, x) && Decides(re, p, Test(code, x))
    ensures code == "u" ==> (p(f) <==> Finds(x, f.url))
    ensures code == "d" ==> (p(f) <==> Finds(x, f.prettyHost))
    ensures code == "m" ==> (p(f) <==> Finds(x, f.verb))
    ensures code == "t" ==> (p(f) <==> f.response.Some? && Finds(x, f.response.value.contentType))
    ensures code == "bq" ==> (p(f) <==> Finds(x, f.body))
    ensures code == "bs" ==> (p(f) <==> f.response.Some? && Finds(x, f.response.value.body))
  {
    hide FindsText, Verbatim, Matches, HeaderText, Finds;
    VerbatimFinds(re, x, f.url);
    VerbatimFinds(re, x, f.prettyHost);
    VerbatimFinds(re, x, f.verb);
    VerbatimFinds(re, x, f.body);
    VerbatimFinds(re, x, "");
    NotInNothing(re, x);
    if f.response.Some? {
      VerbatimFinds(re, x, f.response.value.contentType);
      VerbatimFinds(re, x, f.response.value.body);
    }
  }

  lemma NotInNothing(re: Regex, x: string)
    requires Verbatim(re, x)
    ensures !Finds(x, "")
  {
    hide METACHARACTERS;
  }

  /** Some header line "name: value" holds the text. */
  predicate InSomeLine(x: string, headers: HeaderList) {
    exists i | 0 <= i < |headers| :: Finds(x, headers[i].0 + ": " + headers[i].1)
  }

  /** hq and hs find a text of one line in the header lines of their side; b finds it in either body. */
  lemma LineCodes(re: Regex, p: Predicate, code: string, x: string, f: Flow)
    requires FindsText(re) && Verbatim(re, x) && '\n' !in x && Decides(re, p, Test(code, x))
    ensures code == "hq" ==> (p(f) <==> InSomeLine(x, f.headers))
    ensures code == "hs" ==> (p(f) <==> f.response.Some? && InSomeLine(x, f.response.value.headers))
    ensures code == "b" ==> (p(f) <==> Finds(x, f.body) || (f.response.Some? && Finds(x, f.response.value.body)))
  {
    hide FindsText, Matches, HeaderText, Finds, METACHARACTERS;
    NotInNothing(re, x);
    InHeaders(x, f.headers);
    VerbatimFinds(re, x, HeaderText(f.headers));
    InHeaders(x, ResponseHeaders(f));
    VerbatimFinds(re, x, HeaderText(ResponseHeaders(f)));
    OnEitherSide(x, f.body, ResponseBody(f));
    VerbatimFinds(re, x, f.body + "\n" + ResponseBody(f));
  }

  lemma OnEitherSide(x: string, a: string, b: string)
    requires x != [] && '\n' !in x
    ensures Finds(x, a + "\n" + b) <==> Finds(x, a) || Finds(x, b)
  {
    hide FoundAt;
    var s := a + "\n" + b;
    if Finds(x, s) {
      var i :| 0 <= i <= |s| - |x| && FoundAt(x, s, i);
      FoundOnOneSide(x, a, b, i);
    }
    if Finds(x, a) {
      var i :| 0 <= i <= |a| - |x| && FoundAt(x, a, i);
      assert FoundAt(x, s, i) by { FoundLeft(x, a, b, i); }
    }
    if Finds(x, b) {
      var i :| 0 <= i <= |b| - |x| && FoundAt(x, b, i);
      assert FoundAt(x, s, |a| + 1 + i) by { FoundRight(x, a, b, i); }
    }
  }

  lemma FoundLeft(x: string, a: string, b: string, i: nat)
    requires i + |x| <= |a|
    ensures FoundAt(x, a + "\n" + b, i) <==> FoundAt(x, a, i)
  {
    assert (a + "\n" + b)[i..i + |x|] == a[i..i + |x|];
  }

  lemma FoundRight(x: string, a: string, b: string, i: nat)
    requires i + |x| <= |b|
    ensures FoundAt(x, a + "\n" + b, |a| + 1 + i) <==> FoundAt(x, b, i)
  {
    assert (a + "\n" + b)[|a| + 1 + i..|a| + 1 + i + |x|] == b[i..i + |x|];
  }

  /** A text of one line does not reach over a line end. */
  lemma FoundOnOneSide(x: string, a: string, b: string, i: nat)
    requires '\n' !in x && x != [] && i + |x| <= |a| + 1 + |b| && FoundAt(x, a + "\n" + b, i)
    ensures Finds(x, a) || Finds(x, b)
  {
    if i <= |a| < i + |x| {
      LineEndFound(x, a, b, i);
    } else if i + |x| <= |a| {
      FoundLeft(x, a, b, i);
    } else {
      FoundRight(x, a, b, i - |a| - 1);
    }
  }

  lemma LineEndFound(x: string, a: string, b: string, i: nat)
    requires i <= |a| < i + |x| <= |a| + 1 + |b| && FoundAt(x, a + "\n" + b, i)
    ensures '\n' in x
  {
    var k := |a| - i;
    var part := (a + "\n" + b)[i..i + |x|];
    assert part[k] == '\n' && Lower(part)[k] == Lower(x)[k];
    assert x[k] in x;
  }

  lemma {:induction false} InHeaders(x: string, headers: HeaderList)
    requires x != [] && '\n' !in x
    ensures Finds(x, HeaderText(headers)) <==> InSomeLine(x, headers)
    decreases |headers|
  {
    hide Finds;
    if headers == [] {
      assert !Finds(x, []) by { NothingFound(x); }
    } else {
      var line := headers[0].0 + ": " + headers[0].1;
      if |headers| == 1 {
        assert HeaderText(headers) == line by { assert line + [] == line; }
        assert InSomeLine(x, headers) <==> Finds(x, line);
      } else {
        InHeaders(x, headers[1..]);
        OnEitherSide(x, line, HeaderText(headers[1..]));
        assert HeaderText(headers) == line + "\n" + HeaderText(headers[1..]) by {
          assert line + ("\n" + HeaderText(headers[1..])) == line + "\n" + HeaderText(headers[1..]);
        }
        LaterLine(x, headers);
      }
    }
  }

  lemma LaterLine(x: string, headers: HeaderList)
    requires headers != []
    ensures InSomeLine(x, headers)
            <==> Finds(x, headers[0].0 + ": " + headers[0].1) || InSomeLine(x, headers[1..])
  {
    hide Finds;
    if InSomeLine(x, headers[1..]) {
      var i :| 0 <= i < |headers[1..]| && Finds(x, headers[1..][i].0 + ": " + headers[1..][i].1);
      assert headers[i + 1] == headers[1..][i];
    }
    if InSomeLine(x, headers) {
      var i :| 0 <= i < |headers| && Finds(x, headers[i].0 + ": " + headers[i].1);
      assert i > 0 ==> headers[1..][i - 1] == headers[i];
    }
  }

  lemma NothingFound(x: string)
    requires x != []
    ensures !Finds(x, [])
  {}
}
