/** cURL export and import (src/api/composer.ts): shell quoting, the shell tokenizer, the code generator's
    curl branch and the command-line parser. */
module Curl {
  import opened Prelude
  import opened Text

  type Field = (string, string)

  // ---- the shell tokenizer ----

  /** The tokens of the remaining text, given the token under way, the open quote, and whether a token has
      begun. */
  function Scan(s: string, cur: string, quote: Option<char>, has: bool): seq<string>
    decreases |s|
  {
    if s == [] then (if has then [cur] else [])
    else
      var c := s[0];
      match quote
      case Some(q) =>
        if c == q then Scan(s[1..], cur, None, has)
        else if c == '\\' && q == '\"' && |s| > 1 then Scan(s[2..], cur + [s[1]], quote, has)
        else Scan(s[1..], cur + [c], quote, has)
      case None =>
        if IsQuote(c) then Scan(s[1..], cur, Some(c), true)
        else if IsSpace(c) then
          (if has then [cur] + Scan(s[1..], [], None, false) else Scan(s[1..], cur, None, false))
        else if c == '\\' && |s| > 1 && IsSpace(s[1]) then Scan(s[2..], cur, None, has)
        else Scan(s[1..], cur + [c], None, true)
  }

  function ShellTokens(input: string): seq<string> {
    Scan(input, [], None, false)
  }

  method TokenizeShell(input: string) returns (out: seq<string>)
    ensures out == ShellTokens(input)
  {
    hide IsSpace, Scan;
    out := [];
    var cur: string := "";
    var quote: Option<char> := None;
    var has := false;
    var i := 0;
    assert input[0..] == input;
    while i < |input|
      invariant 0 <= i <= |input|
      invariant out + Scan(input[i..], cur, quote, has) == ShellTokens(input)
    {
      ScanStep(input[i..], cur, quote, has);
      ghost var s := input[i..];
      assert s[1..] == input[i + 1..];
      assert |s| > 1 ==> s[2..] == input[i + 2..] && s[1] == input[i + 1];
      var c := input[i];
      if quote.Some? {
        if c == quote.value {
          quote := None;
        } else if c == '\\' && quote.value == '\"' && i + 1 < |input| {
          i := i + 1;
          cur := cur + [input[i]];
        } else {
          cur := cur + [c];
        }
      } else if c == '\"' || c == '\'' {
        quote := Some(c);
        has := true;
      } else if IsSpace(c) {
        if has {
          out := out + [cur];
          cur := "";
          has := false;
        }
      } else if c == '\\' && i + 1 < |input| && IsSpace(input[i + 1]) {
        i := i + 1;
      } else {
        cur := cur + [c];
        has := true;
      }
      i := i + 1;
    }
    assert input[i..] == [];
    ScanEnd(cur, quote, has);
    if has {
      out := out + [cur];
    }
  }

  lemma ScanEnd(cur: string, quote: Option<char>, has: bool)
    ensures Scan([], cur, quote, has) == if has then [cur] else []
  {}

  /** One character of the scan. */
  lemma ScanStep(s: string, cur: string, quote: Option<char>, has: bool)
    requires s != []
    ensures var c := s[0];
            Scan(s, cur, quote, has)
            == if quote.Some? then
                 (if c == quote.value then Scan(s[1..], cur, None, has)
                  else if c == '\\' && quote.value == '\"' && |s| > 1 then Scan(s[2..], cur + [s[1]], quote, has)
                  else Scan(s[1..], cur + [c], quote, has))
               else if IsQuote(c) then Scan(s[1..], cur, Some(c), true)
               else if IsSpace(c) then
                 (if has then [cur] + Scan(s[1..], [], None, false) else Scan(s[1..], cur, None, false))
               else if c == '\\' && |s| > 1 && IsSpace(s[1]) then Scan(s[2..], cur, None, has)
               else Scan(s[1..], cur + [c], None, true)
  {
    hide IsSpace;
  }

  // ---- quoting ----

  /** Every single quote becomes quote, backslash, quote, quote. */
  function Escape(s: string): string {
    if s == [] then [] else (if s[0] == '\'' then "'\\''" else [s[0]]) + Escape(s[1..])
  }

  function ShellQuote(s: string): string {
    "'" + Escape(s) + "'"
  }

  lemma {:induction false} EscapePlain(s: string)
    requires '\'' !in s
    ensures Escape(s) == s
    decreases |s|
  {
    if s != [] {
      assert s[0] in s;
      EscapePlain(s[1..]);
    }
  }

  lemma {:induction false} ScanInside(s: string, rest: string, cur: string)
    requires '\'' !in s
    ensures Scan(s + ['\''] + rest, cur, Some('\''), true) == Scan(rest, cur + s, None, true)
    decreases |s|
  {
    hide Scan, IsSpace;
    var t := s + ['\''] + rest;
    ScanStep(t, cur, Some('\''), true);
    if s == [] {
      assert t[1..] == rest;
      assert cur + s == cur;
    } else {
      assert s[0] in s;
      assert t[1..] == s[1..] + ['\''] + rest;
      ScanInside(s[1..], rest, cur + [s[0]]);
      assert cur + [s[0]] + s[1..] == cur + s;
    }
  }

  /** Quoted text without a single quote is taken up whole, backslashes and newlines included. */
  lemma ScanQuoted(s: string, rest: string, cur: string, has: bool)
    requires '\'' !in s
    ensures Scan(ShellQuote(s) + rest, cur, None, has) == Scan(rest, cur + s, None, true)
  {
    hide Scan, IsSpace;
    EscapePlain(s);
    var t := ShellQuote(s) + rest;
    ScanStep(t, cur, None, has);
    assert t[1..] == s + ['\''] + rest;
    ScanInside(s, rest, cur);
  }

  /** A token under way is never shortened. */
  lemma {:induction false} ScanExtends(s: string, cur: string, quote: Option<char>)
    ensures var r := Scan(s, cur, quote, true); r != [] && cur <= r[0]
    decreases |s|
  {
    hide Scan, IsSpace;
    if s == [] {
      ScanEnd(cur, quote, true);
    } else {
      ScanStep(s, cur, quote, true);
      var c := s[0];
      if quote.Some? {
        ScanExtends(s[1..], cur, None);
        ScanExtends(s[1..], cur + [c], quote);
        if |s| > 1 {
          ScanExtends(s[2..], cur + [s[1]], quote);
        }
      } else {
        ScanExtends(s[1..], cur, Some(c));
        ScanExtends(s[1..], cur + [c], None);
        if |s| > 1 {
          ScanExtends(s[2..], cur, None);
        }
      }
    }
  }

  lemma {:induction false} EscapeAppend(a: string, b: string)
    ensures Escape(a + b) == Escape(a) + Escape(b)
    decreases |a|
  {
    if a == [] {
      assert a + b == b;
    } else {
      assert (a + b)[0] == a[0] && (a + b)[1..] == a[1..] + b;
      EscapeAppend(a[1..], b);
    }
  }

  lemma {:induction false} FirstQuote(s: string) returns (p: string, t: string)
    requires '\'' in s
    ensures s == p + ['\''] + t && '\'' !in p
    decreases |s|
  {
    if s[0] == '\'' {
      p, t := [], s[1..];
    } else {
      p, t := FirstQuote(s[1..]);
      p := [s[0]] + p;
    }
  }

  /** The quoting that shellQuote writes and the tokenizer understands: exactly the texts without a single
      quote come back as they were. */
  lemma QuoteRoundTrip(s: string)
    ensures ShellTokens(ShellQuote(s)) == [s] <==> '\'' !in s
  {
    hide Scan, IsSpace;
    if '\'' !in s {
      ScanQuoted(s, [], [], false);
      assert ShellQuote(s) + [] == ShellQuote(s) && [] + s == s;
      ScanEnd(s, None, true);
    } else {
      var p, t := FirstQuote(s);
      QuoteTurnsIntoBackslash(p, t, []);
      assert ShellQuote(s) + [] == ShellQuote(s);
      var first := ShellTokens(ShellQuote(s))[0];
      assert first[|p|] == (p + ['\\'])[|p|];
      assert s[|p|] == '\'';
    }
  }

  lemma EscapeAt(p: string, t: string)
    requires '\'' !in p
    ensures Escape(p + ['\''] + t) == p + ("'\\''" + Escape(t))
  {
    hide Escape;
    EscapeAppend(p + ['\''], t);
    EscapeAppend(p, ['\'']);
    EscapePlain(p);
    EscapeQuote();
  }

  lemma EscapeQuote()
    ensures Escape(['\'']) == "'\\''"
  {
    assert ['\''][1..] == [];
  }

  /** After the text up to the first single quote there is a backslash, whatever follows. */
  lemma QuoteTurnsIntoBackslash(p: string, t: string, rest: string)
    requires '\'' !in p
    ensures var r := Scan(ShellQuote(p + ['\''] + t) + rest, [], None, false); r != [] && p + ['\\'] <= r[0]
  {
    hide Scan, IsSpace, Escape;
    EscapeAt(p, t);
    var more := "'" + Escape(t) + "'" + rest;
    var after := ['\\', '\''] + more;
    var q := ShellQuote(p + ['\''] + t) + rest;
    assert q == ['\''] + (p + ['\''] + after);
    ScanStep(q, [], None, false);
    assert q[1..] == p + ['\''] + after;
    ScanInside(p, after, []);
    assert [] + p == p;
    BackslashTaken(p, more);
  }

  lemma BackslashTaken(cur: string, more: string)
    ensures var r := Scan(['\\', '\''] + more, cur, None, true); r != [] && cur + ['\\'] <= r[0]
  {
    hide Scan, IsSpace;
    var s := ['\\', '\''] + more;
    QuoteIsNoSpace();
    ScanStep(s, cur, None, true);
    ScanExtends(s[1..], cur + ['\\'], None);
  }

  lemma QuoteIsNoSpace()
    ensures !IsSpace('\'') && !IsSpace('\\') && IsSpace(' ') && IsSpace('\n') && !IsSpace('-')
  {}

  // ---- export ----

  /** The part of a captured request that is exported. */
  datatype Request = Request(verb: string, url: string, headers: seq<Field>, body: string)

  function HeaderText(f: Field): string {
    f.0 + ": " + f.1
  }

  /** The host header is left to curl. */
  function Exported(headers: seq<Field>): seq<Field> {
    if headers == [] then []
    else (if Lower(headers[0].0) != "host" then [headers[0]] else []) + Exported(headers[1..])
  }

  /** Exporting drops the fields named host, in any spelling, and keeps all others in order. */
  lemma {:induction false} ExportedAppend(a: seq<Field>, f: Field)
    ensures Exported(a + [f]) == Exported(a) + if Spelled(f.0, "host") then [] else [f]
    decreases |a|
  {
    hide Lower, Spelled;
    LowerSpelled(f.0, "host");
    if a == [] {
      assert a + [f] == [f] && [f][1..] == [];
    } else {
      assert (a + [f])[1..] == a[1..] + [f];
      ExportedAppend(a[1..], f);
    }
  }

  function HeaderParts(headers: seq<Field>): seq<string> {
    if headers == [] then [] else ["  -H " + ShellQuote(HeaderText(headers[0]))] + HeaderParts(headers[1..])
  }

  function BodyParts(body: string): seq<string> {
    if body == [] then [] else ["  --data " + ShellQuote(body)]
  }

  const CONTINUE: string := " \\\n"

  function CurlParts(r: Request): seq<string> {
    ["curl -X " + r.verb + " " + ShellQuote(r.url)] + HeaderParts(Exported(r.headers)) + BodyParts(r.body)
  }

  function Generate(r: Request): string {
    Join(CurlParts(r), CONTINUE)
  }

  // ---- import ----

  datatype Spec = Spec(verb: Option<string>, url: string, headers: seq<Field>, body: Option<string>)

  function At(tokens: seq<string>, i: nat): Option<string> {
    if i < |tokens| then Some(tokens[i]) else None
  }

  function OrEmpty(t: Option<string>): string {
    match t case Some(s) => s case None => []
  }

  function ParsedHeader(h: string): seq<Field> {
    match IndexOf(h, ":") case None => [] case Some(idx) => [(Trim(h[..idx]), Trim(h[idx + 1..]))]
  }

  predicate IsOption(t: string, short: string, long: string) {
    t == short || t == long
  }

  predicate IsData(t: string) {
    t == "-d" || t == "--data" || t == "--data-raw" || t == "--data-binary"
  }

  /** Options that take the next token as their argument. */
  predicate TakesArgument(t: string) {
    IsOption(t, "-X", "--request") || IsOption(t, "-H", "--header") || IsData(t) ||
    IsOption(t, "-A", "--user-agent") || IsOption(t, "-b", "--cookie") || t == "--url"
  }

  /** One option with its argument, or one other token. */
  function Apply(spec: Spec, t: string, arg: Option<string>): Spec {
    if IsOption(t, "-X", "--request") then spec.(verb := arg)
    else if IsOption(t, "-H", "--header") then spec.(headers := spec.headers + ParsedHeader(OrEmpty(arg)))
    else if IsData(t) then spec.(body := arg)
    else if IsOption(t, "-A", "--user-agent") then spec.(headers := spec.headers + [("user-agent", OrEmpty(arg))])
    else if IsOption(t, "-b", "--cookie") then spec.(headers := spec.headers + [("cookie", OrEmpty(arg))])
    else if t == "--url" then spec.(url := OrEmpty(arg))
    else if !("-" <= t) && spec.url == [] then spec.(url := t)
    else spec
  }

  function ParseArgs(tokens: seq<string>, spec: Spec): Spec
    decreases |tokens|
  {
    if tokens == [] then spec
    else if TakesArgument(tokens[0]) then
      ParseArgs(if |tokens| > 1 then tokens[2..] else [], Apply(spec, tokens[0], At(tokens, 1)))
    else ParseArgs(tokens[1..], Apply(spec, tokens[0], None))
  }

  const BLANK: Spec := Spec(None, [], [], None)

  /** A missing or empty method defaults by the presence of a body. */
  function Defaulted(spec: Spec): Spec {
    if spec.verb.None? || spec.verb.value == []
    then spec.(verb := Some(if spec.body.Some? then "POST" else "GET")) else spec
  }

  function ParseCurl(command: string): Spec {
    var tokens := ShellTokens(command);
    Defaulted(ParseArgs(if tokens != [] && tokens[0] == "curl" then tokens[1..] else tokens, BLANK))
  }

  method ParseCurlCommand(command: string) returns (spec: Spec)
    ensures spec == ParseCurl(command)
  {
    hide ParseArgs, Apply, TakesArgument, ShellTokens;
    var tokens := TokenizeShell(command);
    if tokens != [] && tokens[0] == "curl" {
      tokens := tokens[1..];
    }
    spec := BLANK;
    var i := 0;
    assert tokens[0..] == tokens;
    while i < |tokens|
      invariant 0 <= i <= |tokens| + 1
      invariant ParseArgs(if i <= |tokens| then tokens[i..] else [], spec) == ParseArgs(tokens, BLANK)
    {
      var t := tokens[i];
      ArgsStep(tokens[i..], spec);
      assert tokens[i..][1..] == tokens[i + 1..];
      assert i + 1 < |tokens| ==> tokens[i..][2..] == tokens[i + 2..] && tokens[i..][1] == tokens[i + 1];
      if TakesArgument(t) {
        i := i + 1;
        spec := Apply(spec, t, At(tokens, i));
      } else {
        spec := Apply(spec, t, None);
      }
      i := i + 1;
    }
    ArgsStep([], spec);
    spec := Defaulted(spec);
  }

  lemma ArgsStep(tokens: seq<string>, spec: Spec)
    ensures tokens == [] ==> ParseArgs(tokens, spec) == spec
    ensures tokens != [] && TakesArgument(tokens[0]) ==>
              ParseArgs(tokens, spec)
              == ParseArgs(if |tokens| > 1 then tokens[2..] else [], Apply(spec, tokens[0], At(tokens, 1)))
    ensures tokens != [] && !TakesArgument(tokens[0]) ==>
              ParseArgs(tokens, spec) == ParseArgs(tokens[1..], Apply(spec, tokens[0], None))
  {
    hide Apply, TakesArgument;
  }

  // ---- the round trip ----

  predicate Plain(s: string) {
    '\'' !in s
  }

  /** Text that the tokenizer takes up without quotes. */
  predicate BareWord(s: string) {
    s != [] && forall i | 0 <= i < |s| :: !IsSpace(s[i]) && !IsQuote(s[i]) && s[i] != '\\'
  }

  predicate PortableField(f: Field) {
    Trimmed(f.0) && Trimmed(f.1) && ':' !in f.0 && Plain(f.0) && Plain(f.1)
  }

  /** Requests that survive: a method of one bare word, a URL that is there and is no option, and no single
      quote anywhere. */
  predicate Portable(r: Request) {
    BareWord(r.verb) && r.url != [] && r.url[0] != '-' && Plain(r.url) && Plain(r.body) &&
    forall i | 0 <= i < |r.headers| :: PortableField(r.headers[i])
  }

  lemma {:induction false} ScanBare(w: string, rest: string, cur: string, has: bool)
    requires BareWord(w)
    ensures Scan(w + rest, cur, None, has) == Scan(rest, cur + w, None, true)
    decreases |w|
  {
    hide Scan, IsSpace;
    var t := w + rest;
    ScanStep(t, cur, None, has);
    assert t[1..] == w[1..] + rest;
    assert !IsSpace(w[0]) && !IsQuote(w[0]) && w[0] != '\\';
    if |w| == 1 {
      assert w[1..] + rest == rest && cur + [w[0]] == cur + w;
    } else {
      assert BareWord(w[1..]);
      ScanBare(w[1..], rest, cur + [w[0]], true);
      assert cur + [w[0]] + w[1..] == cur + w;
    }
  }

  /** A space ends a token; further spaces, and a line continuation, do nothing. */
  lemma ScanSpace(rest: string, cur: string, has: bool)
    ensures Scan(" " + rest, cur, None, has)
            == if has then [cur] + Scan(rest, [], None, false) else Scan(rest, cur, None, false)
  {
    hide Scan, IsSpace;
    QuoteIsNoSpace();
    ScanStep(" " + rest, cur, None, has);
    assert (" " + rest)[1..] == rest;
  }

  lemma ScanContinue(rest: string, cur: string)
    ensures Scan(CONTINUE + rest, cur, None, true) == [cur] + Scan(rest, [], None, false)
  {
    hide Scan, IsSpace;
    QuoteIsNoSpace();
    var t := "\\\n" + rest;
    assert CONTINUE + rest == " " + t;
    ScanSpace(t, cur, true);
    ScanStep(t, [], None, false);
    assert t[2..] == rest;
  }

  /** A word, a space, and quoted text at the start of a token list. */
  lemma ScanOption(indent: bool, option: string, text: string, rest: string)
    requires BareWord(option) && Plain(text)
    ensures Scan((if indent then "  " else "") + option + " " + ShellQuote(text) + rest, [], None, false)
            == [option] + Scan(rest, text, None, true)
  {
    hide Scan, IsSpace, ShellQuote, BareWord;
    var body := " " + (ShellQuote(text) + rest);
    var s := option + body;
    if indent {
      ScanSpace(" " + s, [], false);
      ScanSpace(s, [], false);
      assert "  " + option + " " + ShellQuote(text) + rest == " " + (" " + s);
    } else {
      assert "" + option + " " + ShellQuote(text) + rest == s;
    }
    ScanBare(option, body, [], false);
    assert [] + option == option && [] + text == text;
    ScanSpace(ShellQuote(text) + rest, option, true);
    ScanQuoted(text, rest, [], false);
  }

  /** The argument tokens of an export. */
  function HeaderTokens(headers: seq<Field>): seq<string> {
    if headers == [] then [] else ["-H", HeaderText(headers[0])] + HeaderTokens(headers[1..])
  }

  function BodyTokens(body: string): seq<string> {
    if body == [] then [] else ["--data", body]
  }

  /** The text after a first part: the remaining parts, each behind a line continuation. */
  function Continued(parts: seq<string>): string {
    if parts == [] then [] else CONTINUE + parts[0] + Continued(parts[1..])
  }

  lemma {:induction false} JoinContinued(first: string, parts: seq<string>)
    ensures Join([first] + parts, CONTINUE) == first + Continued(parts)
    decreases |parts|
  {
    var all := [first] + parts;
    assert all[1..] == parts;
    if parts != [] {
      JoinContinued(parts[0], parts[1..]);
      assert [parts[0]] + parts[1..] == parts;
      assert first + (CONTINUE + (parts[0] + Continued(parts[1..])))
          == first + (CONTINUE + parts[0] + Continued(parts[1..]));
    } else {
      assert first + [] == first;
    }
  }

  lemma OptionWords()
    ensures BareWord("-H") && BareWord("--data") && BareWord("curl") && BareWord("-X")
  {
    QuoteIsNoSpace();
  }

  lemma ScanHeaderPart(text: string, rest: string, cur: string)
    requires Plain(text)
    ensures Scan(CONTINUE + ("  -H " + ShellQuote(text) + rest), cur, None, true)
            == [cur, "-H"] + Scan(rest, text, None, true)
  {
    hide Scan, ShellQuote, Plain, BareWord;
    OptionWords();
    ScanContinue("  -H " + ShellQuote(text) + rest, cur);
    ScanOption(true, "-H", text, rest);
    assert "  -H " + ShellQuote(text) + rest == "  " + "-H" + " " + ShellQuote(text) + rest;
  }

  lemma ScanBodyPart(body: string, cur: string)
    requires Plain(body)
    ensures Scan(Continued(BodyParts(body)), cur, None, true) == [cur] + BodyTokens(body)
  {
    hide Scan, ShellQuote, Plain, BareWord;
    var parts := BodyParts(body);
    if body == [] {
      ScanEnd(cur, None, true);
    } else {
      OptionWords();
      assert parts[1..] == [];
      assert Continued(parts) == CONTINUE + parts[0];
      ScanContinue(parts[0], cur);
      ScanOption(true, "--data", body, []);
      assert parts[0] == "  " + "--data" + " " + ShellQuote(body) + [];
      ScanEnd(body, None, true);
    }
  }

  lemma {:induction false} ScanParts(headers: seq<Field>, body: string, cur: string)
    requires (forall i | 0 <= i < |headers| :: Plain(HeaderText(headers[i]))) && Plain(body)
    ensures Scan(Continued(HeaderParts(headers) + BodyParts(body)), cur, None, true)
            == [cur] + HeaderTokens(headers) + BodyTokens(body)
    decreases |headers|
  {
    hide Scan, ShellQuote, HeaderText, Plain, BodyParts, BodyTokens;
    var parts := HeaderParts(headers) + BodyParts(body);
    if headers == [] {
      assert parts == BodyParts(body);
      ScanBodyPart(body, cur);
    } else {
      var text := HeaderText(headers[0]);
      var rest := Continued(parts[1..]);
      assert parts[1..] == HeaderParts(headers[1..]) + BodyParts(body);
      ScanHeaderPart(text, rest, cur);
      assert Continued(parts) == CONTINUE + ("  -H " + ShellQuote(text) + rest);
      forall i | 0 <= i < |headers[1..]|
        ensures Plain(HeaderText(headers[1..][i]))
      {
        assert headers[1..][i] == headers[i + 1];
      }
      ScanParts(headers[1..], body, text);
    }
  }

  /** The text of an export from the URL on. */
  function AfterUrl(r: Request): string {
    Continued(HeaderParts(Exported(r.headers)) + BodyParts(r.body))
  }

  lemma ExportPrefix(r: Request)
    requires BareWord(r.verb)
    ensures ShellTokens(Generate(r))
            == ["curl", "-X", r.verb] + Scan(ShellQuote(r.url) + AfterUrl(r), [], None, false)
  {
    hide Scan, ShellQuote, HeaderParts, BodyParts, Continued, Exported, IsSpace;
    OptionWords();
    var parts := HeaderParts(Exported(r.headers)) + BodyParts(r.body);
    var first := "curl -X " + r.verb + " " + ShellQuote(r.url);
    JoinContinued(first, parts);
    assert CurlParts(r) == [first] + parts;
    var s4 := ShellQuote(r.url) + AfterUrl(r);
    var s3 := r.verb + (" " + s4);
    var s2 := "-X" + (" " + s3);
    assert first + AfterUrl(r) == "curl" + (" " + s2);
    ScanBare("curl", " " + s2, [], false);
    ScanSpace(s2, "curl", true);
    ScanBare("-X", " " + s3, [], false);
    ScanSpace(s3, "-X", true);
    ScanBare(r.verb, " " + s4, [], false);
    ScanSpace(s4, r.verb, true);
    assert [] + "curl" == "curl" && [] + "-X" == "-X" && [] + r.verb == r.verb;
  }

  lemma ExportTokens(r: Request)
    requires Portable(r)
    ensures ShellTokens(Generate(r))
            == ["curl", "-X", r.verb, r.url] + HeaderTokens(Exported(r.headers)) + BodyTokens(r.body)
  {
    hide Scan, ShellTokens, ShellQuote, HeaderText, HeaderParts, BodyParts, HeaderTokens, BodyTokens, Continued;
    hide PortableField, Exported, IsSpace, BareWord, Generate;
    var headers := Exported(r.headers);
    ExportPrefix(r);
    ScanQuoted(r.url, AfterUrl(r), [], false);
    assert [] + r.url == r.url;
    ExportedPortable(r.headers);
    forall i | 0 <= i < |headers|
      ensures Plain(HeaderText(headers[i]))
    {
      HeaderTextPlain(headers[i]);
    }
    ScanParts(headers, r.body, r.url);
  }

  lemma HeaderTextPlain(f: Field)
    requires PortableField(f)
    ensures Plain(HeaderText(f))
  {}

  lemma {:induction false} ExportedPortable(headers: seq<Field>)
    requires forall i | 0 <= i < |headers| :: PortableField(headers[i])
    ensures forall i | 0 <= i < |Exported(headers)| :: PortableField(Exported(headers)[i])
    decreases |headers|
  {
    hide PortableField, Lower;
    if headers != [] {
      ExportedPortable(headers[1..]);
    }
  }

  lemma HeaderReads(f: Field)
    requires PortableField(f)
    ensures ParsedHeader(HeaderText(f)) == [f]
  {
    hide IndexOf, Trim, IsSpace;
    var h := HeaderText(f);
    assert h == f.0 + ":" + (" " + f.1);
    forall j: nat | j < |f.0|
      ensures !OccursAt(h, ":", j)
    {
      assert h[j..j + 1] == [f.0[j]];
    }
    assert h[|f.0|..|f.0| + 1] == ":";
    IndexOfIs(h, ":", |f.0|);
    assert h[..|f.0|] == f.0 && h[|f.0| + 1..] == " " + f.1;
    QuoteIsNoSpace();
    TrimPadded([], f.0, []);
    assert [] + f.0 + [] == f.0;
    TrimPadded(" ", f.1, []);
    assert " " + f.1 + [] == " " + f.1;
  }

  lemma VerbOption(spec: Spec, verb: string)
    ensures TakesArgument("-X") && Apply(spec, "-X", Some(verb)) == spec.(verb := Some(verb))
  {}

  lemma HeaderOption(spec: Spec, h: string)
    ensures TakesArgument("-H")
    ensures Apply(spec, "-H", Some(h)) == spec.(headers := spec.headers + ParsedHeader(h))
  {
    hide ParsedHeader;
  }

  lemma BodyOption(spec: Spec, body: string)
    ensures TakesArgument("--data") && Apply(spec, "--data", Some(body)) == spec.(body := Some(body))
  {
    hide ParsedHeader;
  }

  lemma {:induction false} ArgsOfHeaders(headers: seq<Field>, body: string, spec: Spec)
    requires (forall i | 0 <= i < |headers| :: PortableField(headers[i])) && spec.body.None?
    ensures ParseArgs(HeaderTokens(headers) + BodyTokens(body), spec)
            == spec.(headers := spec.headers + headers, body := if body == [] then None else Some(body))
    decreases |headers|
  {
    hide ParseArgs, Apply, TakesArgument, ParsedHeader, PortableField, HeaderText;
    var tokens := HeaderTokens(headers) + BodyTokens(body);
    if headers == [] {
      ArgsOfBody(body, spec);
      assert tokens == BodyTokens(body);
      assert spec.headers + headers == spec.headers;
    } else {
      var rest := HeaderTokens(headers[1..]) + BodyTokens(body);
      assert tokens == ["-H", HeaderText(headers[0])] + rest;
      ArgsOfHeader(headers[0], rest, spec);
      ArgsOfHeaders(headers[1..], body, spec.(headers := spec.headers + [headers[0]]));
      assert spec.headers + [headers[0]] + headers[1..] == spec.headers + headers;
    }
  }

  lemma ArgsOfHeader(f: Field, rest: seq<string>, spec: Spec)
    requires PortableField(f)
    ensures ParseArgs(["-H", HeaderText(f)] + rest, spec) == ParseArgs(rest, spec.(headers := spec.headers + [f]))
  {
    hide ParseArgs, Apply, TakesArgument, ParsedHeader, PortableField, HeaderText;
    var tokens := ["-H", HeaderText(f)] + rest;
    ArgsStep(tokens, spec);
    HeaderOption(spec, HeaderText(f));
    HeaderReads(f);
    assert tokens[2..] == rest;
  }

  lemma ArgsOfBody(body: string, spec: Spec)
    requires spec.body.None?
    ensures ParseArgs(BodyTokens(body), spec) == spec.(body := if body == [] then None else Some(body))
  {
    hide ParseArgs, Apply, TakesArgument;
    var tokens := BodyTokens(body);
    ArgsStep(tokens, spec);
    if body != [] {
      BodyOption(spec, body);
      assert tokens[2..] == [];
      ArgsStep([], spec.(body := Some(body)));
    }
  }

  /** Export and import undo each other: method, URL, headers other than host in order, and body. */
  lemma CurlRoundTrip(r: Request)
    requires Portable(r)
    ensures ParseCurl(Generate(r))
            == Spec(Some(r.verb), r.url, Exported(r.headers), if r.body == [] then None else Some(r.body))
  {
    hide ParseArgs, Apply, TakesArgument, ParsedHeader, PortableField, HeaderTokens, BodyTokens, ShellTokens;
    hide Generate, Exported, IsSpace;
    ExportTokens(r);
    VerbOption(BLANK, r.verb);
    var rest := HeaderTokens(Exported(r.headers)) + BodyTokens(r.body);
    var tokens := ["curl", "-X", r.verb, r.url] + rest;
    assert ShellTokens(Generate(r)) == tokens;
    assert tokens[1..] == ["-X", r.verb, r.url] + rest;
    assert tokens[1..][2..] == [r.url] + rest;
    ArgsStep(tokens[1..], BLANK);
    var spec1 := BLANK.(verb := Some(r.verb));
    ArgsStep([r.url] + rest, spec1);
    UrlTaken(r.url, spec1);
    assert ([r.url] + rest)[1..] == rest;
    ExportedPortable(r.headers);
    ArgsOfHeaders(Exported(r.headers), r.body, spec1.(url := r.url));
    assert [] + Exported(r.headers) == Exported(r.headers);
    assert r.verb != [];
  }

  lemma UrlTaken(url: string, spec: Spec)
    requires url != [] && url[0] != '-' && spec.url == []
    ensures !TakesArgument(url) && Apply(spec, url, None) == spec.(url := url)
  {}

  // ---- where the round trip ends ----

  /** What a character costs. Every option that sets or adds something costs at least what it adds, so that a command
      has nothing to spare for saying anything twice. */
  function Cost(c: char): nat {
    if c == '-' || c == 'H' || c == 'b' then 1 else if c == 'A' then 2 else 0
  }

  function Weight(s: string): nat {
    if s == [] then 0 else Cost(s[0]) + Weight(s[1..])
  }

  function Weights(tokens: seq<string>): nat {
    if tokens == [] then 0 else Weight(tokens[0]) + Weights(tokens[1..])
  }

  lemma {:induction false} WeightAppend(a: string, b: string)
    ensures Weight(a + b) == Weight(a) + Weight(b)
    decreases |a|
  {
    hide Cost;
    if a == [] {
      assert a + b == b;
    } else {
      assert (a + b)[0] == a[0] && (a + b)[1..] == a[1..] + b;
      WeightAppend(a[1..], b);
    }
  }

  lemma WeightOne(c: char)
    ensures Weight([c]) == Cost(c)
  {
    assert [c][1..] == [];
  }

  lemma WeightSnoc(s: string, c: char)
    ensures Weight(s + [c]) == Weight(s) + Cost(c)
  {
    hide Cost, Weight;
    WeightAppend(s, [c]);
    WeightOne(c);
  }

  lemma WeightCut(s: string, i: nat)
    requires i <= |s|
    ensures Weight(s) == Weight(s[..i]) + Weight(s[i..])
  {
    hide Weight;
    assert s == s[..i] + s[i..];
    WeightAppend(s[..i], s[i..]);
  }

  /** Tokens weigh no more than the text they come from. */
  lemma {:induction false} ScanWeighs(s: string, cur: string, quote: Option<char>, has: bool)
    ensures Weights(Scan(s, cur, quote, has)) <= Weight(cur) + Weight(s)
    decreases |s|
  {
    hide Scan, IsSpace, Cost, Weight;
    if s == [] {
      ScanEnd(cur, quote, has);
      OneToken(cur);
    } else {
      var c := s[0];
      ScanStep(s, cur, quote, has);
      WeightStep(s);
      WeightSnoc(cur, c);
      if |s| > 1 {
        WeightStep(s[1..]);
        WeightSnoc(cur, s[1]);
        assert s[1..][1..] == s[2..];
      }
      if quote.Some? {
        if c == quote.value {
          ScanWeighs(s[1..], cur, None, has);
        } else if c == '\\' && quote.value == '\"' && |s| > 1 {
          ScanWeighs(s[2..], cur + [s[1]], quote, has);
        } else {
          ScanWeighs(s[1..], cur + [c], quote, has);
        }
      } else if IsQuote(c) {
        ScanWeighs(s[1..], cur, Some(c), true);
      } else if IsSpace(c) {
        ScanWeighs(s[1..], [], None, false);
        ScanWeighs(s[1..], cur, None, false);
        NewToken(cur, Scan(s[1..], [], None, false));
      } else if c == '\\' && |s| > 1 && IsSpace(s[1]) {
        ScanWeighs(s[2..], cur, None, has);
      } else {
        ScanWeighs(s[1..], cur + [c], None, true);
      }
    }
  }

  lemma OneToken(t: string)
    ensures Weights([t]) == Weight(t) && Weights([]) == 0
  {
    hide Weight;
    assert [t][1..] == [];
  }

  lemma NewToken(t: string, rest: seq<string>)
    ensures Weights([t] + rest) == Weight(t) + Weights(rest) && Weight([]) == 0
  {
    assert ([t] + rest)[1..] == rest;
  }

  lemma WeightStep(s: string)
    requires s != []
    ensures Weight(s) == Cost(s[0]) + Weight(s[1..])
  {
    hide Cost;
  }

  lemma {:induction false} EscapeWeighs(s: string)
    ensures Weight(Escape(s)) == Weight(s)
    decreases |s|
  {
    hide Cost;
    if s != [] {
      EscapeWeighs(s[1..]);
      var first := if s[0] == '\'' then "'\\''" else [s[0]];
      WeightAppend(first, Escape(s[1..]));
      EscapedQuote();
      WeightOne(s[0]);
    }
  }

  lemma EscapedQuote()
    ensures Weight("'\\''") == 0 && Cost('\'') == 0
  {
    assert "'\\''"[1..] == "\\''" && "\\''"[1..] == "''" && "''"[1..] == "'" && "'"[1..] == [];
  }

  lemma QuoteWeighs(s: string)
    ensures Weight(ShellQuote(s)) == Weight(s)
  {
    hide Weight, Escape;
    WeightAppend("'" + Escape(s), "'");
    WeightAppend("'", Escape(s));
    EscapeWeighs(s);
    WeightOne('\'');
    assert ['\''] == "'";
    EscapedQuote();
  }

  function FieldWeight(f: Field): nat {
    Weight(f.0) + Weight(f.1) + 2
  }

  function FieldsWeight(fs: seq<Field>): nat {
    if fs == [] then 0 else FieldWeight(fs[0]) + FieldsWeight(fs[1..])
  }

  lemma {:induction false} FieldsAppend(a: seq<Field>, b: seq<Field>)
    ensures FieldsWeight(a + b) == FieldsWeight(a) + FieldsWeight(b)
    decreases |a|
  {
    hide FieldWeight;
    if a == [] {
      assert a + b == b;
    } else {
      assert (a + b)[0] == a[0] && (a + b)[1..] == a[1..] + b;
      FieldsAppend(a[1..], b);
    }
  }

  lemma OneField(f: Field)
    ensures FieldsWeight([f]) == FieldWeight(f) && FieldsWeight([]) == 0
  {
    hide FieldWeight;
    assert [f][1..] == [];
  }

  function BodyWeight(body: Option<string>): nat {
    match body case Some(b) => 1 + Weight(b) case None => 0
  }

  function SpecWeight(spec: Spec): nat {
    Weight(OrEmpty(spec.verb)) + Weight(spec.url) + FieldsWeight(spec.headers) + BodyWeight(spec.body)
  }

  lemma {:induction false} TrimWeighs(s: string)
    ensures Weight(Trim(s)) <= Weight(s)
  {
    hide IsSpace, Weight;
    TrimLeftWeighs(s);
    TrimRightWeighs(TrimLeft(s));
  }

  lemma {:induction false} TrimLeftWeighs(s: string)
    ensures Weight(TrimLeft(s)) <= Weight(s)
    decreases |s|
  {
    hide IsSpace, Cost;
    if s != [] && IsSpace(s[0]) {
      TrimLeftWeighs(s[1..]);
    }
  }

  lemma {:induction false} TrimRightWeighs(s: string)
    ensures Weight(TrimRight(s)) <= Weight(s)
    decreases |s|
  {
    hide IsSpace, Weight;
    if s != [] && IsSpace(s[|s| - 1]) {
      TrimRightWeighs(s[..|s| - 1]);
      WeightCut(s, |s| - 1);
    }
  }

  lemma ParsedHeaderWeighs(h: string)
    ensures FieldsWeight(ParsedHeader(h)) <= 2 + Weight(h)
  {
    hide IndexOf, Trim, Weight;
    match IndexOf(h, ":")
    case None =>
    case Some(idx) =>
      IndexInside(h, idx);
      TrimWeighs(h[..idx]);
      TrimWeighs(h[idx + 1..]);
      WeightCut(h, idx);
      WeightCut(h[idx..], 1);
      assert h[idx..][1..] == h[idx + 1..];
      OneField((Trim(h[..idx]), Trim(h[idx + 1..])));
  }

  lemma IndexInside(h: string, idx: nat)
    requires IndexOf(h, ":") == Some(idx)
    ensures idx < |h|
  {}

  lemma LongWeight(t: string)
    requires |t| >= 2 && t[0] == '-' && t[1] == '-'
    ensures Weight(t) >= 2
  {
    assert t[1..][0] == '-';
  }

  /** What the option words cost. */
  lemma OptionWeights()
    ensures Weight("-H") == 2 && Weight("-A") == 3 && Weight("-b") == 2 && Weight("-d") == 1 && Weight("-X") == 1
  {
    hide Weight;
    Letters("-H", '-', 'H');
    Letters("-A", '-', 'A');
    Letters("-b", '-', 'b');
    Letters("-d", '-', 'd');
    Letters("-X", '-', 'X');
  }

  lemma NameWeights()
    ensures Weight("user-agent") == 1 && Weight("cookie") == 0
  {
    hide Weight;
    Weightless("user");
    Weightless("agent");
    Weightless("cookie");
    Letters("-a", '-', 'a');
    Weightless("gent");
    WeightAppend("user", "-a");
    WeightAppend("user" + "-a", "gent");
    assert "user" + "-a" + "gent" == "user-agent";
  }

  lemma LongWeights()
    ensures Weight("--data") == 2 && Weight("--user-agent") == 3
  {
    hide Weight;
    Letters("--", '-', '-');
    Weightless("data");
    NameWeights();
    WeightAppend("--", "data");
    WeightAppend("--", "user-agent");
    assert "--" + "data" == "--data" && "--" + "user-agent" == "--user-agent";
  }

  lemma Letters(t: string, x: char, y: char)
    requires t == [x, y]
    ensures Weight(t) == Cost(x) + Cost(y)
  {
    hide Cost, Weight;
    WeightStep(t);
    WeightOne(y);
    assert t[1..] == [y];
  }

  lemma {:induction false} Weightless(s: string)
    requires forall i | 0 <= i < |s| :: Cost(s[i]) == 0
    ensures Weight(s) == 0
    decreases |s|
  {
    if s != [] {
      Weightless(s[1..]);
    }
  }

  /** An option costs at least what it adds. */
  lemma ApplyWeighs(spec: Spec, t: string, arg: Option<string>)
    ensures SpecWeight(Apply(spec, t, arg))
            <= SpecWeight(spec) + Weight(t) + if TakesArgument(t) then Weight(OrEmpty(arg)) else 0
  {
    hide Weight, FieldsWeight, ParsedHeader, IsOption, IsData;
    var a := OrEmpty(arg);
    NoWeight();
    if IsOption(t, "-X", "--request") {
    } else if IsOption(t, "-H", "--header") {
      HeaderCosts(t);
      ParsedHeaderWeighs(a);
      FieldsAppend(spec.headers, ParsedHeader(a));
    } else if IsData(t) {
      DataCosts(t);
    } else if IsOption(t, "-A", "--user-agent") {
      NamedCosts(t);
      FieldsAppend(spec.headers, [("user-agent", a)]);
      OneField(("user-agent", a));
      NameWeights();
    } else if IsOption(t, "-b", "--cookie") {
      NamedCosts(t);
      FieldsAppend(spec.headers, [("cookie", a)]);
      OneField(("cookie", a));
      NameWeights();
    }
  }

  lemma NoWeight()
    ensures Weight([]) == 0
  {}

  lemma HeaderCosts(t: string)
    requires IsOption(t, "-H", "--header")
    ensures Weight(t) >= 2
  {
    hide Weight;
    OptionWeights();
    if t == "--header" {
      LongWeight(t);
    }
  }

  lemma DataCosts(t: string)
    requires IsData(t)
    ensures Weight(t) >= 1
  {
    hide Weight;
    OptionWeights();
    if t != "-d" {
      LongWeight(t);
    }
  }

  lemma NamedCosts(t: string)
    ensures IsOption(t, "-A", "--user-agent") ==> Weight(t) >= 3
    ensures IsOption(t, "-b", "--cookie") ==> Weight(t) >= 2
  {
    hide Weight;
    OptionWeights();
    LongWeights();
    if t == "--cookie" {
      LongWeight(t);
    }
  }

  /** The tokens after the first one or two, and what those weigh. */
  lemma RestWeighs(tokens: seq<string>)
    requires tokens != []
    ensures Weights(tokens) == Weight(tokens[0]) + Weights(tokens[1..])
    ensures |tokens| > 1 ==>
              Weights(tokens) == Weight(tokens[0]) + Weight(OrEmpty(At(tokens, 1))) + Weights(tokens[2..])
    ensures |tokens| == 1 ==> Weights(tokens) == Weight(tokens[0]) && Weight(OrEmpty(At(tokens, 1))) == 0
  {
    hide Weight;
    NoWeight();
    if |tokens| > 1 {
      assert tokens[1..][0] == tokens[1] && tokens[1..][1..] == tokens[2..];
    }
  }

  lemma {:induction false} ArgsWeigh(tokens: seq<string>, spec: Spec)
    ensures SpecWeight(ParseArgs(tokens, spec)) <= SpecWeight(spec) + Weights(tokens)
    decreases |tokens|
  {
    hide Apply, TakesArgument, SpecWeight, Weight, Weights, ParseArgs;
    ArgsStep(tokens, spec);
    if tokens != [] {
      RestWeighs(tokens);
      NoTokensWeigh();
      if TakesArgument(tokens[0]) {
        ApplyWeighs(spec, tokens[0], At(tokens, 1));
        ArgsWeigh(if |tokens| > 1 then tokens[2..] else [], Apply(spec, tokens[0], At(tokens, 1)));
      } else {
        ApplyWeighs(spec, tokens[0], None);
        ArgsWeigh(tokens[1..], Apply(spec, tokens[0], None));
      }
    }
  }

  lemma NoTokensWeigh()
    ensures Weights([]) == 0
  {}

  /** A URL that is set can be replaced only at a loss of two. */
  lemma {:induction false} UrlCosts(tokens: seq<string>, spec: Spec)
    requires spec.url != []
    ensures var f := ParseArgs(tokens, spec);
            f.url != spec.url ==> SpecWeight(f) + 2 <= SpecWeight(spec) + Weights(tokens)
    decreases |tokens|
  {
    hide Apply, TakesArgument, SpecWeight, Weight, Weights, ParseArgs;
    ArgsStep(tokens, spec);
    if tokens != [] {
      RestWeighs(tokens);
      NoTokensWeigh();
      var arg := if TakesArgument(tokens[0]) then At(tokens, 1) else None;
      var rest := if !TakesArgument(tokens[0]) then tokens[1..] else if |tokens| > 1 then tokens[2..] else [];
      var next := Apply(spec, tokens[0], arg);
      if tokens[0] == "--url" {
        UrlOption(spec, arg);
        ArgsWeigh(rest, next);
      } else {
        UrlKept(spec, tokens[0], arg);
        ApplyWeighs(spec, tokens[0], arg);
        UrlCosts(rest, next);
      }
    }
  }

  lemma UrlOption(spec: Spec, arg: Option<string>)
    ensures TakesArgument("--url")
    ensures SpecWeight(Apply(spec, "--url", arg)) + 2 <= SpecWeight(spec) + Weight("--url") + Weight(OrEmpty(arg))
  {
    hide Weight, FieldsWeight, ParsedHeader;
    LongWeight("--url");
  }

  lemma UrlKept(spec: Spec, t: string, arg: Option<string>)
    requires t != "--url" && spec.url != []
    ensures Apply(spec, t, arg).url == spec.url
  {
    hide ParsedHeader, IsOption, IsData;
  }

  /** A body that is set can be replaced only at the loss of the option and of the old body. */
  lemma {:induction false} BodyCosts(tokens: seq<string>, spec: Spec)
    requires spec.body.Some?
    ensures var f := ParseArgs(tokens, spec);
            f.body != spec.body ==> SpecWeight(f) + 1 + Weight(spec.body.value) <= SpecWeight(spec) + Weights(tokens)
    decreases |tokens|
  {
    hide Apply, TakesArgument, SpecWeight, Weight, Weights, ParseArgs, IsData;
    ArgsStep(tokens, spec);
    if tokens != [] {
      RestWeighs(tokens);
      NoTokensWeigh();
      var arg := if TakesArgument(tokens[0]) then At(tokens, 1) else None;
      var rest := if !TakesArgument(tokens[0]) then tokens[1..] else if |tokens| > 1 then tokens[2..] else [];
      var next := Apply(spec, tokens[0], arg);
      if IsData(tokens[0]) {
        DataOption(spec, tokens[0], arg);
        ArgsWeigh(rest, next);
      } else {
        BodyKept(spec, tokens[0], arg);
        ApplyWeighs(spec, tokens[0], arg);
        BodyCosts(rest, next);
      }
    }
  }

  lemma DataOption(spec: Spec, t: string, arg: Option<string>)
    requires IsData(t) && spec.body.Some?
    ensures TakesArgument(t)
    ensures SpecWeight(Apply(spec, t, arg)) + 1 + Weight(spec.body.value)
            <= SpecWeight(spec) + Weight(t) + Weight(OrEmpty(arg))
  {
    hide Weight, FieldsWeight, ParsedHeader;
    DataCosts(t);
  }

  lemma BodyKept(spec: Spec, t: string, arg: Option<string>)
    requires !IsData(t)
    ensures Apply(spec, t, arg).body == spec.body
  {
    hide ParsedHeader, IsOption, IsData;
  }

  /** Headers are only ever added. */
  lemma {:induction false} HeadersGrow(tokens: seq<string>, spec: Spec)
    ensures spec.headers <= ParseArgs(tokens, spec).headers
    decreases |tokens|
  {
    hide Apply, TakesArgument, ParseArgs;
    ArgsStep(tokens, spec);
    if tokens != [] {
      var arg := if TakesArgument(tokens[0]) then At(tokens, 1) else None;
      var rest := if !TakesArgument(tokens[0]) then tokens[1..] else if |tokens| > 1 then tokens[2..] else [];
      HeadersAdded(spec, tokens[0], arg);
      HeadersGrow(rest, Apply(spec, tokens[0], arg));
    }
  }

  lemma HeadersAdded(spec: Spec, t: string, arg: Option<string>)
    ensures spec.headers <= Apply(spec, t, arg).headers
  {
    hide ParsedHeader, IsOption, IsData;
  }

  // ---- a single quote is never recovered ----

  /** Trimming text that begins with no white space leaves a beginning of it. */
  lemma TrimPrefix(s: string)
    requires s != [] && !IsSpace(s[0])
    ensures Trim(s) <= s && Trim(" " + s) == Trim(s)
  {
    hide IsSpace;
    QuoteIsNoSpace();
    assert TrimLeft(s) == s;
    assert (" " + s)[1..] == s;
    assert TrimLeft(" " + s) == s;
    TrimRightPrefix(s);
  }

  /** Text with a backslash where another has a quote is not trimmed to it. */
  lemma SpoiledText(x: string, p: string, v: string)
    requires p + ['\\'] <= x && p + ['\''] <= v && Trimmed(v)
    ensures Trim(x) != v && Trim(" " + x) != v
  {
    hide IsSpace, Trim;
    QuoteIsNoSpace();
    assert x[|p|] == '\\' && v[|p|] == '\'';
    assert p != [] ==> x[0] == p[0] == v[0];
    TrimPrefix(x);
    assert |Trim(x)| > |p| ==> Trim(x)[|p|] == x[|p|];
  }

  /** A header whose first single quote has become a backslash is not read as the header. */
  lemma SpoiledHeader(f: Field, p: string, bad: string)
    requires Trimmed(f.0) && Trimmed(f.1) && ':' !in f.0
    requires '\'' !in p && p + ['\''] <= HeaderText(f) && p + ['\\'] <= bad
    ensures ParsedHeader(bad) != [f]
  {
    hide IndexOf, Trim, IsSpace, Trimmed;
    var h := HeaderText(f);
    assert h == f.0 + (": " + f.1) && h[|p|] == '\'';
    assert forall i | 0 <= i < |p| :: bad[i] == p[i] == h[i];
    match IndexOf(bad, ":")
    case None =>
    case Some(idx) =>
      IndexInside(bad, idx);
      ColonAt(bad, idx);
      if |p| < |f.0| {
        assert forall i | 0 <= i <= |p| :: bad[i] != ':' by {
          assert forall i | 0 <= i < |p| :: bad[i] == f.0[i] && f.0[i] in f.0;
          assert bad[|p|] == '\\';
        }
        assert p + ['\\'] <= bad[..idx];
        assert p + ['\''] <= f.0;
        SpoiledText(bad[..idx], p, f.0);
      } else {
        var n := |f.0|;
        assert h[n] == ':' && h[n + 1] == ' ' && |p| >= n + 2;
        assert bad[n] == ':' && bad[n + 1] == ' ';
        assert forall i | 0 <= i < n :: bad[i] != ':' by {
          assert forall i | 0 <= i < n :: bad[i] == f.0[i] && f.0[i] in f.0;
        }
        FirstColon(bad, idx, n);
        var q := p[n + 2..];
        var x := bad[n + 2..];
        assert bad[n + 1..] == " " + x;
        assert q + ['\\'] <= x && q + ['\''] <= f.1;
        SpoiledText(x, q, f.1);
      }
  }

  lemma ColonAt(s: string, idx: nat)
    requires IndexOf(s, ":") == Some(idx)
    ensures idx < |s| && s[idx] == ':'
  {
    assert OccursAt(s, ":", idx);
    assert s[idx..idx + 1] == ":";
  }

  lemma FirstColon(s: string, idx: nat, n: nat)
    requires IndexOf(s, ":") == Some(idx) && n < |s| && s[n] == ':' && forall i | 0 <= i < n :: s[i] != ':'
    ensures idx == n
  {
    ColonAt(s, idx);
    assert s[n..n + 1] == ":";
    assert OccursAt(s, ":", n);
  }

  /** What an export weighs from some header on. */
  lemma {:induction false} ContinuedWeighs(headers: seq<Field>, body: string)
    ensures Weight(Continued(HeaderParts(headers) + BodyParts(body)))
            == FieldsWeight(headers) + if body == [] then 0 else 2 + Weight(body)
    decreases |headers|
  {
    hide Weight, ShellQuote, HeaderText, FieldWeight, BodyParts;
    var parts := HeaderParts(headers) + BodyParts(body);
    if headers == [] {
      assert parts == BodyParts(body);
      BodyPartWeighs(body);
    } else {
      assert parts[1..] == HeaderParts(headers[1..]) + BodyParts(body);
      assert parts[0] == "  -H " + ShellQuote(HeaderText(headers[0]));
      ContinuedWeighs(headers[1..], body);
      WeightAppend(CONTINUE + parts[0], Continued(parts[1..]));
      HeaderPartWeighs(headers[0]);
    }
  }

  lemma HeaderPartWeighs(f: Field)
    ensures Weight(CONTINUE + ("  -H " + ShellQuote(HeaderText(f)))) == FieldWeight(f)
    ensures Weight(HeaderText(f)) + 2 == FieldWeight(f)
  {
    hide Weight, ShellQuote;
    WeightAppend(CONTINUE, "  -H " + ShellQuote(HeaderText(f)));
    WeightAppend("  -H ", ShellQuote(HeaderText(f)));
    QuoteWeighs(HeaderText(f));
    WeightAppend(f.0 + ": ", f.1);
    WeightAppend(f.0, ": ");
    Spacing();
  }

  lemma BodyPartWeighs(body: string)
    ensures Weight(Continued(BodyParts(body))) == if body == [] then 0 else 2 + Weight(body)
  {
    hide Weight, ShellQuote;
    NoWeight();
    if body != [] {
      var parts := BodyParts(body);
      assert parts[1..] == [];
      assert Continued(parts) == CONTINUE + parts[0];
      WeightAppend(CONTINUE, parts[0]);
      WeightAppend("  --data ", ShellQuote(body));
      QuoteWeighs(body);
      Spacing();
    }
  }

  lemma Spacing()
    ensures Weight(CONTINUE) == 0 && Weight(": ") == 0 && Weight("  -H ") == 2 && Weight("  --data ") == 2
  {
    hide Weight;
    Weightless(CONTINUE);
    Weightless(": ");
    Weightless("  ");
    Weightless(" ");
    OptionWeights();
    LongWeights();
    WeightAppend("  " + "-H", " ");
    WeightAppend("  ", "-H");
    assert "  " + "-H" + " " == "  -H ";
    WeightAppend("  " + "--data", " ");
    WeightAppend("  ", "--data");
    assert "  " + "--data" + " " == "  --data ";
  }

  /** What is read agrees with what was written, but perhaps for a method that weighs the same. */
  predicate Agrees(f: Spec, spec: Spec, headers: seq<Field>, body: string) {
    Weight(OrEmpty(f.verb)) == Weight(OrEmpty(spec.verb)) && f.url == spec.url && f.headers == spec.headers + headers &&
    f.body == if body == [] then None else Some(body)
  }

  lemma AgreedWeight(f: Spec, spec: Spec, headers: seq<Field>, body: string)
    requires Agrees(f, spec, headers, body) && spec.body.None?
    ensures SpecWeight(f) == SpecWeight(spec) + FieldsWeight(headers) + if body == [] then 0 else 1 + Weight(body)
  {
    hide Weight, FieldsWeight;
    FieldsAppend(spec.headers, headers);
  }

  predicate HeaderShaped(f: Field) {
    Trimmed(f.0) && Trimmed(f.1) && ':' !in f.0
  }

  /** The tokens that begin where a quoted text with a single quote stands: the first is spoiled, and together they
      weigh no more than the text. */
  lemma Spoils(text: string, rest: string) returns (p: string, bad: string, more: seq<string>)
    requires !Plain(text)
    ensures Scan(ShellQuote(text) + rest, [], None, false) == [bad] + more
    ensures '\'' !in p && p + ['\''] <= text && p + ['\\'] <= bad
    ensures Weight(bad) + Weights(more) <= Weight(text) + Weight(rest)
  {
    hide Scan, ShellQuote, Weight, Weights;
    var t;
    p, t := FirstQuote(text);
    QuoteTurnsIntoBackslash(p, t, rest);
    var r := Scan(ShellQuote(text) + rest, [], None, false);
    bad, more := r[0], r[1..];
    assert r == [bad] + more;
    ScanWeighs(ShellQuote(text) + rest, [], None, false);
    NoWeight();
    WeightAppend(ShellQuote(text), rest);
    QuoteWeighs(text);
    NewToken(bad, more);
  }

  lemma SpoiledBody(body: string, cur: string, spec: Spec)
    requires !Plain(body) && spec.body.None?
    ensures var r := Scan(Continued(BodyParts(body)), cur, None, true);
            r != [] && !Agrees(ParseArgs(r[1..], spec), spec, [], body)
  {
    hide Scan, ParseArgs, Apply, TakesArgument, ShellQuote, Weight, Weights, SpecWeight, Agrees, BareWord;
    assert body != [];
    var p, bad, more := Spoils(body, []);
    var parts := BodyParts(body);
    assert parts[1..] == [];
    var q := ShellQuote(body) + [];
    assert q == ShellQuote(body);
    assert "  --data " + q == "  " + "--data" + " " + q;
    assert Continued(parts) == CONTINUE + ("  " + "--data" + " " + q);
    OptionWords();
    ScanPart("--data", q, cur);
    var r := Scan(Continued(parts), cur, None, true);
    assert r == [cur, "--data", bad] + more;
    var tokens := ["--data", bad] + more;
    assert r[1..] == tokens;
    ArgsStep(tokens, spec);
    BodyOption(spec, bad);
    assert tokens[2..] == more;
    var next := spec.(body := Some(bad));
    var f := ParseArgs(more, next);
    if Agrees(f, spec, [], body) {
      AgreedWeight(f, spec, [], body);
      AgreedBody(f, spec, [], body);
      assert bad[|p|] == '\\' && body[|p|] == '\'';
      BodyCosts(more, next);
      BodySet(spec, bad);
      NoWeight();
      NoFields();
      assert false;
    }
  }

  lemma NoFields()
    ensures FieldsWeight([]) == 0
  {}

  lemma AgreedBody(f: Spec, spec: Spec, headers: seq<Field>, body: string)
    requires Agrees(f, spec, headers, body)
    ensures body != [] ==> f.body == Some(body)
    ensures f.url == spec.url && f.headers == spec.headers + headers
  {}

  lemma BodySet(spec: Spec, bad: string)
    requires spec.body.None?
    ensures SpecWeight(spec.(body := Some(bad))) == SpecWeight(spec) + 1 + Weight(bad)
  {
    hide Weight, FieldsWeight;
  }

  /** A line continuation, an option and the space after it. */
  lemma ScanPart(option: string, rest: string, cur: string)
    requires BareWord(option)
    ensures Scan(CONTINUE + ("  " + option + " " + rest), cur, None, true)
            == [cur, option] + Scan(rest, [], None, false)
  {
    hide Scan, IsSpace, BareWord;
    ScanContinue("  " + option + " " + rest, cur);
    var s := option + (" " + rest);
    assert "  " + option + " " + rest == " " + (" " + s);
    ScanSpace(" " + s, [], false);
    ScanSpace(s, [], false);
    ScanBare(option, " " + rest, [], false);
    assert [] + option == option;
    ScanSpace(rest, option, true);
  }

  lemma {:induction false} SpoiledHeaders(headers: seq<Field>, body: string, cur: string, spec: Spec)
    requires forall i | 0 <= i < |headers| :: HeaderShaped(headers[i])
    requires !Plain(body) || exists i | 0 <= i < |headers| :: !Plain(HeaderText(headers[i]))
    requires spec.body.None?
    ensures var r := Scan(Continued(HeaderParts(headers) + BodyParts(body)), cur, None, true);
            r != [] && !Agrees(ParseArgs(r[1..], spec), spec, headers, body)
    decreases |headers|
  {
    hide Scan, ParseArgs, ShellQuote, HeaderText, Plain, BodyParts, Continued, Agrees, HeaderShaped;
    var parts := HeaderParts(headers) + BodyParts(body);
    if headers == [] {
      assert parts == BodyParts(body);
      SpoiledBody(body, cur, spec);
    } else {
      var text := HeaderText(headers[0]);
      var rest := Continued(parts[1..]);
      assert parts[1..] == HeaderParts(headers[1..]) + BodyParts(body);
      assert Continued(parts) == CONTINUE + ("  -H " + ShellQuote(text) + rest) by {
        ContinuedStep(parts);
      }
      if Plain(text) {
        ScanHeaderPart(text, rest, cur);
        ScanExtends(rest, text, None);
        var tail := Scan(rest, text, None, true);
        PlainHeaderFirst(headers, body, cur, spec, tail);
      } else {
        QuotedHeaderFirst(headers, body, cur, spec);
      }
    }
  }

  lemma ContinuedStep(parts: seq<string>)
    requires parts != []
    ensures Continued(parts) == CONTINUE + parts[0] + Continued(parts[1..])
  {}

  lemma {:induction false} PlainHeaderFirst(headers: seq<Field>, body: string, cur: string, spec: Spec,
                                            tail: seq<string>)
    requires headers != [] && forall i | 0 <= i < |headers| :: HeaderShaped(headers[i])
    requires !Plain(body) || exists i | 0 <= i < |headers| :: !Plain(HeaderText(headers[i]))
    requires spec.body.None? && Plain(HeaderText(headers[0]))
    requires tail == Scan(Continued(HeaderParts(headers[1..]) + BodyParts(body)), HeaderText(headers[0]), None, true)
    requires Scan(Continued(HeaderParts(headers) + BodyParts(body)), cur, None, true) == [cur, "-H"] + tail
    ensures var r := Scan(Continued(HeaderParts(headers) + BodyParts(body)), cur, None, true);
            r != [] && !Agrees(ParseArgs(r[1..], spec), spec, headers, body)
    decreases |headers|, 0
  {
    hide Scan, ParseArgs, ShellQuote, HeaderText, Plain, BodyParts, HeaderParts, Continued, Agrees, HeaderShaped;
    var text := HeaderText(headers[0]);
    var more := headers[1..];
    assert forall i | 0 <= i < |more| :: more[i] == headers[i + 1];
    if Plain(body) {
      var i :| 0 <= i < |headers| && !Plain(HeaderText(headers[i]));
      assert more[i - 1] == headers[i];
    }
    var next := spec.(headers := spec.headers + [headers[0]]);
    SpoiledHeaders(more, body, text, next);
    ScanExtends(Continued(HeaderParts(more) + BodyParts(body)), text, None);
    OneMoreToken(more, body, text);
    assert tail == [text] + tail[1..];
    var r := [cur, "-H"] + tail;
    assert r[1..] == ["-H", text] + tail[1..];
    PortableHeader(headers[0]);
    ArgsOfHeader(headers[0], tail[1..], spec);
    AgreesShift(ParseArgs(tail[1..], next), spec, headers, body);
  }

  /** Before a line continuation or the end the token under way is complete. */
  lemma OneMoreToken(headers: seq<Field>, body: string, cur: string)
    ensures var r := Scan(Continued(HeaderParts(headers) + BodyParts(body)), cur, None, true);
            r != [] && r[0] == cur
  {
    hide Scan, ShellQuote, HeaderText;
    var parts := HeaderParts(headers) + BodyParts(body);
    if parts == [] {
      ScanEnd(cur, None, true);
    } else {
      assert Continued(parts) == CONTINUE + (parts[0] + Continued(parts[1..]));
      ScanContinue(parts[0] + Continued(parts[1..]), cur);
    }
  }

  lemma PortableHeader(f: Field)
    requires HeaderShaped(f) && Plain(HeaderText(f))
    ensures PortableField(f)
  {
    hide Trimmed;
    assert forall c | c in f.0 :: c in HeaderText(f);
    assert forall c | c in f.1 :: c in HeaderText(f);
  }

  lemma AgreesShift(f: Spec, spec: Spec, headers: seq<Field>, body: string)
    requires headers != []
    ensures Agrees(f, spec, headers, body)
            <==> Agrees(f, spec.(headers := spec.headers + [headers[0]]), headers[1..], body)
  {
    hide Weight;
    assert spec.headers + headers == spec.headers + [headers[0]] + headers[1..];
  }

  lemma HeaderFirst(headers: seq<Field>, body: string)
    requires headers != []
    ensures Continued(HeaderParts(headers) + BodyParts(body))
            == CONTINUE + ("  " + "-H" + " "
                           + (ShellQuote(HeaderText(headers[0]))
                              + Continued(HeaderParts(headers[1..]) + BodyParts(body))))
  {
    hide ShellQuote, HeaderText, BodyParts, Continued, HeaderParts;
    var q := ShellQuote(HeaderText(headers[0]));
    HeaderPartsStep(headers);
    var more := HeaderParts(headers[1..]) + BodyParts(body);
    assert HeaderParts(headers) + BodyParts(body) == ["  -H " + q] + more;
    ContinuedStep(["  -H " + q] + more);
    assert (["  -H " + q] + more)[1..] == more;
    HeaderOptionJoins(q, Continued(more));
  }

  lemma HeaderPartsStep(headers: seq<Field>)
    requires headers != []
    ensures HeaderParts(headers) == ["  -H " + ShellQuote(HeaderText(headers[0]))] + HeaderParts(headers[1..])
  {
    hide ShellQuote, HeaderText;
  }

  lemma HeaderOptionJoins(q: string, rest: string)
    ensures CONTINUE + ("  -H " + q) + rest == CONTINUE + ("  " + "-H" + " " + (q + rest))
  {
    assert "  -H " == "  " + "-H" + " ";
  }

  /** The tokens from a header on whose text holds a single quote. */
  lemma QuotedScan(headers: seq<Field>, body: string, cur: string) returns (p: string, bad: string, more: seq<string>)
    requires headers != [] && !Plain(HeaderText(headers[0]))
    ensures Scan(Continued(HeaderParts(headers) + BodyParts(body)), cur, None, true) == [cur, "-H", bad] + more
    ensures '\'' !in p && p + ['\''] <= HeaderText(headers[0]) && p + ['\\'] <= bad
    ensures Weight(bad) + Weights(more)
            <= Weight(HeaderText(headers[0])) + Weight(Continued(HeaderParts(headers[1..]) + BodyParts(body)))
  {
    hide Scan, ShellQuote, HeaderText, Plain, BodyParts, HeaderParts, Continued, Weight, Weights, BareWord;
    var text := HeaderText(headers[0]);
    var rest := Continued(HeaderParts(headers[1..]) + BodyParts(body));
    HeaderFirst(headers, body);
    OptionWords();
    ScanPart("-H", ShellQuote(text) + rest, cur);
    p, bad, more := Spoils(text, rest);
    assert [cur, "-H"] + ([bad] + more) == [cur, "-H", bad] + more;
  }

  lemma QuotedHeaderFirst(headers: seq<Field>, body: string, cur: string, spec: Spec)
    requires headers != [] && HeaderShaped(headers[0]) && !Plain(HeaderText(headers[0])) && spec.body.None?
    ensures var r := Scan(Continued(HeaderParts(headers) + BodyParts(body)), cur, None, true);
            r != [] && !Agrees(ParseArgs(r[1..], spec), spec, headers, body)
  {
    hide Scan, ParseArgs, Apply, TakesArgument, HeaderText, Plain, BodyParts, HeaderParts, Continued, Weight, Weights;
    hide Agrees, ParsedHeader, FieldsWeight, FieldWeight, HeaderShaped, SpecWeight;
    var p, bad, more := QuotedScan(headers, body, cur);
    var r := [cur, "-H", bad] + more;
    var tokens := ["-H", bad] + more;
    assert r[1..] == tokens && tokens[2..] == more;
    ArgsStep(tokens, spec);
    HeaderOption(spec, bad);
    var next := spec.(headers := spec.headers + ParsedHeader(bad));
    var f := ParseArgs(more, next);
    SpoiledHeaderText(headers[0], p, bad);
    if Agrees(f, spec, headers, body) {
      AgreedBody(f, spec, headers, body);
      HeadersGrow(more, next);
      ParsedOnce(bad);
      FirstAdded(spec.headers, ParsedHeader(bad), headers, f.headers);
      assert next == spec;
      ArgsWeigh(more, spec);
      AgreedWeight(f, spec, headers, body);
      ContinuedWeighs(headers[1..], body);
      HeaderPartWeighs(headers[0]);
      FieldsStep(headers);
      assert false;
    }
  }

  lemma SpoiledHeaderText(f: Field, p: string, bad: string)
    requires HeaderShaped(f) && '\'' !in p && p + ['\''] <= HeaderText(f) && p + ['\\'] <= bad
    ensures ParsedHeader(bad) != [f]
  {
    SpoiledHeader(f, p, bad);
  }

  lemma FieldsStep(fs: seq<Field>)
    requires fs != []
    ensures FieldsWeight(fs) == FieldWeight(fs[0]) + FieldsWeight(fs[1..])
  {
    hide FieldWeight;
  }

  lemma FirstAdded(front: seq<Field>, added: seq<Field>, expected: seq<Field>, all: seq<Field>)
    requires front + added <= all && all == front + expected && expected != [] && |added| <= 1
    ensures added == [] || added == [expected[0]]
  {
    if added != [] {
      assert all[|front|] == added[0] && all[|front|] == expected[0];
    }
  }

  lemma ParsedOnce(h: string)
    ensures |ParsedHeader(h)| <= 1
  {
    hide IndexOf, Trim;
  }

  lemma SpoiledUrl(r: Request, spec: Spec)
    requires r.url != [] && r.url[0] != '-' && !Plain(r.url)
    requires spec.url == [] && spec.headers == [] && spec.body.None?
    ensures var tokens := Scan(ShellQuote(r.url) + AfterUrl(r), [], None, false);
            !Agrees(ParseArgs(tokens, spec), spec.(url := r.url), Exported(r.headers), r.body)
  {
    hide Scan, ParseArgs, Apply, TakesArgument, ShellQuote, Weight, Weights, SpecWeight, Agrees, FieldsWeight, Exported;
    hide Continued, HeaderParts, BodyParts, Plain;
    var headers := Exported(r.headers);
    var p, bad, more := Spoils(r.url, AfterUrl(r));
    assert bad[|p|] == '\\' && r.url[|p|] == '\'';
    assert p != [] ==> bad[0] == p[0] == r.url[0];
    var tokens := [bad] + more;
    ArgsStep(tokens, spec);
    UrlTaken(bad, spec);
    assert tokens[1..] == more;
    var next := spec.(url := bad);
    var f := ParseArgs(more, next);
    if Agrees(f, spec.(url := r.url), headers, r.body) {
      AgreedBody(f, spec.(url := r.url), headers, r.body);
      AgreedWeight(f, spec.(url := r.url), headers, r.body);
      UrlCosts(more, next);
      UrlSet(spec, bad);
      UrlSet(spec, r.url);
      ContinuedWeighs(headers, r.body);
      assert false;
    }
  }

  lemma UrlSet(spec: Spec, url: string)
    requires spec.url == []
    ensures SpecWeight(spec.(url := url)) == SpecWeight(spec) + Weight(url)
  {
    hide FieldsWeight;
    assert Weight([]) == 0;
  }

  /** The parts of Portable that have nothing to do with quotes. */
  predicate Shaped(r: Request) {
    BareWord(r.verb) && r.url != [] && r.url[0] != '-' &&
    forall i | 0 <= i < |Exported(r.headers)| :: HeaderShaped(Exported(r.headers)[i])
  }

  predicate QuoteFree(r: Request) {
    Plain(r.url) && Plain(r.body) &&
    forall i | 0 <= i < |Exported(r.headers)| :: Plain(HeaderText(Exported(r.headers)[i]))
  }

  /** Export and import undo each other exactly when there is no single quote in the URL, the exported headers and the
      body, whatever double quotes, backslashes and options are written there. */
  lemma CurlRoundTripExact(r: Request)
    requires Shaped(r)
    ensures ParseCurl(Generate(r))
            == Spec(Some(r.verb), r.url, Exported(r.headers), if r.body == [] then None else Some(r.body))
            <==> QuoteFree(r)
  {
    hide ParseCurl, Generate, Exported, BareWord, HeaderShaped, HeaderText, Plain;
    if QuoteFree(r) {
      var e := r.(headers := Exported(r.headers));
      ExportedTwice(r.headers);
      forall i | 0 <= i < |e.headers|
        ensures PortableField(e.headers[i])
      {
        PortableHeader(e.headers[i]);
      }
      CurlRoundTrip(e);
      assert Generate(e) == Generate(r) by { SameExport(r, e); }
    } else {
      SpoiledRequest(r);
    }
  }

  lemma SpoiledRequest(r: Request)
    requires Shaped(r) && !QuoteFree(r)
    ensures ParseCurl(Generate(r))
            != Spec(Some(r.verb), r.url, Exported(r.headers), if r.body == [] then None else Some(r.body))
  {
    hide Scan, ParseArgs, Apply, TakesArgument, ShellTokens, Generate, Exported, BareWord, HeaderShaped, HeaderText;
    hide Plain, AfterUrl, ShellQuote, Agrees;
    ExportPrefix(r);
    var tail := Scan(ShellQuote(r.url) + AfterUrl(r), [], None, false);
    var tokens := ["-X", r.verb] + tail;
    assert ShellTokens(Generate(r)) == ["curl", "-X", r.verb] + tail;
    assert ShellTokens(Generate(r))[1..] == tokens && tokens[2..] == tail;
    ArgsStep(tokens, BLANK);
    VerbOption(BLANK, r.verb);
    var spec := BLANK.(verb := Some(r.verb));
    var f := ParseArgs(tail, spec);
    var headers := Exported(r.headers);
    if Plain(r.url) {
      assert '\'' !in r.url by { PlainMeans(r.url); }
      ScanQuoted(r.url, AfterUrl(r), [], false);
      assert [] + r.url == r.url;
      SpoiledTail(r, spec.(url := r.url));
      var whole := Scan(AfterUrl(r), r.url, None, true);
      assert tail == whole == [r.url] + whole[1..];
      ArgsStep(tail, spec);
      UrlTaken(r.url, spec);
    } else {
      SpoiledUrl(r, spec);
    }
    if ParseCurl(Generate(r)) == Spec(Some(r.verb), r.url, headers, if r.body == [] then None else Some(r.body)) {
      EqualAgrees(f, r, spec.(url := r.url));
      assert false;
    }
  }

  lemma PlainMeans(s: string)
    ensures Plain(s) <==> '\'' !in s
  {}

  lemma SpoiledTail(r: Request, spec: Spec)
    requires Shaped(r) && !QuoteFree(r) && Plain(r.url) && spec.body.None?
    ensures var whole := Scan(AfterUrl(r), r.url, None, true);
            whole != [] && whole[0] == r.url && !Agrees(ParseArgs(whole[1..], spec), spec, Exported(r.headers), r.body)
  {
    hide Scan, ParseArgs, Exported, BareWord, HeaderShaped, HeaderText, Plain, Agrees, Continued, HeaderParts;
    hide BodyParts;
    SpoiledHeaders(Exported(r.headers), r.body, r.url, spec);
    OneMoreToken(Exported(r.headers), r.body, r.url);
  }

  /** Equal requests agree: the default methods weigh nothing. */
  lemma EqualAgrees(f: Spec, r: Request, spec: Spec)
    requires spec == Spec(Some(r.verb), r.url, [], None)
    requires Defaulted(f) == Spec(Some(r.verb), r.url, Exported(r.headers), if r.body == [] then None else Some(r.body))
    ensures Agrees(f, spec, Exported(r.headers), r.body)
  {
    hide Weight, Exported;
    Weightless("GET");
    Weightless("POST");
    NoWeight();
    assert [] + Exported(r.headers) == Exported(r.headers);
  }

  lemma {:induction false} ExportedTwice(headers: seq<Field>)
    ensures Exported(Exported(headers)) == Exported(headers)
    decreases |headers|
  {
    hide Lower;
    if headers != [] {
      ExportedTwice(headers[1..]);
      var e := Exported(headers);
      if Lower(headers[0].0) != "host" {
        assert e[1..] == Exported(headers[1..]);
      } else {
        assert e == Exported(headers[1..]);
      }
    }
  }

  lemma SameExport(r: Request, e: Request)
    requires e == r.(headers := Exported(r.headers)) && Exported(e.headers) == Exported(r.headers)
    ensures Generate(e) == Generate(r)
  {}

  /** The smallest kind of text that does not come back. */
  lemma QuoteIsLost()
    ensures ShellTokens(ShellQuote("it's")) != ["it's"]
  {
    hide ShellTokens, ShellQuote;
    assert "it's"[2] == '\'';
    QuoteRoundTrip("it's");
  }
}
