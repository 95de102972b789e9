/** Command lines that somebody typed (src/api/composer.ts): what each option of curl does on import, and the method
    when none is given. */
module CurlCommands {
  import opened Prelude
  import opened Text
  import opened Curl

  /** Quoted text and words, as they are typed. */
  lemma QuotedText(s: string)
    requires '\'' !in s
    ensures ShellQuote(s) == "'" + s + "'"
  {
    EscapePlain(s);
  }

  const OPTIONS: set<string> :=
    {"-X", "--request", "-H", "--header", "-d", "--data", "--data-raw", "--data-binary", "-A", "--user-agent", "-b",
     "--cookie", "--url"}

  lemma OptionIsWord(option: string)
    requires option in OPTIONS
    ensures BareWord(option) && TakesArgument(option)
  {
    hide BareWord, OPTIONS, TakesArgument;
    OptionLetters(option);
    LettersAreWord(option);
    OptionTakes(option);
  }

  lemma OptionTakes(option: string)
    requires option in OPTIONS
    ensures TakesArgument(option)
  {}

  lemma OptionLetters(option: string)
    requires option in OPTIONS
    ensures option != [] && forall i | 0 <= i < |option| :: '-' <= option[i] <= 'z' && option[i] != '\\'
  {}

  lemma LettersAreWord(word: string)
    requires word != [] && forall i | 0 <= i < |word| :: '-' <= word[i] <= 'z' && word[i] != '\\'
    ensures BareWord(word)
  {}

  /** The tokens of a URL alone, and of a URL with one option and its argument. */
  lemma TokensOfUrl(u: string, rest: string)
    requires '\'' !in u
    ensures ShellTokens("curl '" + u + "'" + rest) == ["curl"] + Scan(rest, u, None, true)
  {
    hide Scan, ShellQuote;
    QuotedText(u);
    OptionWords();
    var tail := ShellQuote(u) + rest;
    assert "curl '" + u + "'" + rest == "curl" + (" " + tail);
    ScanBare("curl", " " + tail, [], false);
    assert [] + "curl" == "curl";
    ScanSpace(tail, "curl", true);
    ScanQuoted(u, rest, [], false);
    assert [] + u == u;
  }

  lemma TokensOfOption(u: string, option: string, a: string)
    requires '\'' !in u && '\'' !in a && option in OPTIONS
    ensures ShellTokens("curl '" + u + "' " + option + " '" + a + "'") == ["curl", u, option, a]
  {
    hide Scan, ShellQuote, ShellTokens, OPTIONS, BareWord;
    QuotedText(a);
    OptionIsWord(option);
    var last := ShellQuote(a) + [];
    var rest := " " + (option + (" " + last));
    assert "curl '" + u + "' " + option + " '" + a + "'" == "curl '" + u + "'" + rest;
    TokensOfUrl(u, rest);
    ScanSpace(option + (" " + last), u, true);
    ScanBare(option, " " + last, [], false);
    assert [] + option == option;
    ScanSpace(last, option, true);
    ScanQuoted(a, [], [], false);
    assert [] + a == a;
    ScanEnd(a, None, true);
  }

  /** A URL without options is a GET. */
  lemma PlainCommand(u: string)
    requires '\'' !in u && u != "" && u[0] != '-'
    ensures ParseCurl("curl '" + u + "'") == Spec(Some("GET"), u, [], None)
  {
    hide ShellTokens, Scan;
    var command := "curl '" + u + "'";
    assert command + [] == command;
    TokensOfUrl(u, []);
    ScanEnd(u, None, true);
    var tokens := ["curl", u];
    assert ["curl"] + [u] == tokens && tokens[1..] == [u] && [u][1..] == [];
    assert !TakesArgument(u) by { NoDash(u); }
    ArgsStep([u], BLANK);
    ArgsStep([], Apply(BLANK, u, None));
  }

  lemma NoDash(u: string)
    requires u != "" && u[0] != '-'
    ensures !TakesArgument(u) && Apply(BLANK, u, None) == BLANK.(url := u)
  {}

  /** One option with its argument: -X sets the method unless it is empty, the four data options set the body, which
      makes the request a POST; -H, -A and -b add a header, and --url replaces the URL. */
  lemma CommandWithOption(u: string, option: string, a: string)
    requires '\'' !in u && '\'' !in a && option in OPTIONS && u != "" && u[0] != '-'
    ensures var r := ParseCurl("curl '" + u + "' " + option + " '" + a + "'");
            (option == "-X" || option == "--request" ==> r == Spec(Some(if a == "" then "GET" else a), u, [], None)) &&
            (option == "-d" || option == "--data" || option == "--data-raw" || option == "--data-binary" ==>
               r == Spec(Some("POST"), u, [], Some(a))) &&
            (option == "-H" || option == "--header" ==>
               r == Spec(Some("GET"), u,
                         match IndexOf(a, ":")
                         case None => []
                         case Some(i) => [(Trim(a[..i]), Trim(a[i + 1..]))],
                         None)) &&
            (option == "-A" || option == "--user-agent" ==> r == Spec(Some("GET"), u, [("user-agent", a)], None)) &&
            (option == "-b" || option == "--cookie" ==> r == Spec(Some("GET"), u, [("cookie", a)], None)) &&
            (option == "--url" ==> r == Spec(Some("GET"), a, [], None))
  {
    hide ShellTokens, OPTIONS, TakesArgument, IndexOf, Trim;
    TokensOfOption(u, option, a);
    OptionIsWord(option);
    var tokens := ["curl", u, option, a];
    assert tokens[1..] == [u, option, a] && [u, option, a][1..] == [option, a];
    NoDash(u);
    ArgsStep([u, option, a], BLANK);
    var spec := BLANK.(url := u);
    ArgsStep([option, a], spec);
    assert [option, a][2..] == [];
    ArgsStep([], Apply(spec, option, Some(a)));
    assert [] + ParsedHeader(a) == ParsedHeader(a);
    assert forall f: Field :: [] + [f] == [f];
  }

  /** Any command line without -X and --request is a POST if it gives a body, and a GET otherwise. */
  lemma DefaultMethod(command: string)
    requires "-X" !in ShellTokens(command) && "--request" !in ShellTokens(command)
    ensures var r := ParseCurl(command); r.verb == Some(if r.body.Some? then "POST" else "GET")
  {
    hide ShellTokens;
    var tokens := ShellTokens(command);
    NoMethod(if tokens != [] && tokens[0] == "curl" then tokens[1..] else tokens, BLANK);
  }

  lemma {:induction false} NoMethod(tokens: seq<string>, spec: Spec)
    requires "-X" !in tokens && "--request" !in tokens
    ensures ParseArgs(tokens, spec).verb == spec.verb
    decreases |tokens|
  {
    hide TakesArgument;
    if tokens != [] {
      ArgsStep(tokens, spec);
      assert tokens[0] in tokens;
      OtherOption(spec, tokens[0], At(tokens, 1));
      OtherOption(spec, tokens[0], None);
      if TakesArgument(tokens[0]) {
        NoMethod(if |tokens| > 1 then tokens[2..] else [], Apply(spec, tokens[0], At(tokens, 1)));
      } else {
        NoMethod(tokens[1..], Apply(spec, tokens[0], None));
      }
    }
  }

  lemma OtherOption(spec: Spec, t: string, arg: Option<string>)
    requires t != "-X" && t != "--request"
    ensures Apply(spec, t, arg).verb == spec.verb
  {
    hide ParsedHeader;
  }

  // ---- double quotes ----

  /** A backslash before every double quote and every backslash. */
  function Backslashed(s: string): string {
    if s == [] then []
    else (if s[0] == '\"' || s[0] == '\\' then ['\\', s[0]] else [s[0]]) + Backslashed(s[1..])
  }

  /** Any text at all, in double quotes with these backslashes, is tokenized back to itself alone. */
  lemma DoubleQuoted(s: string)
    ensures ShellTokens("\"" + Backslashed(s) + "\"") == [s]
  {
    hide Scan, Backslashed;
    var t := Backslashed(s) + "\"";
    assert "\"" + Backslashed(s) + "\"" == "\"" + t;
    ScanStep("\"" + t, [], None, false);
    assert ("\"" + t)[1..] == t;
    InDoubleQuotes(s, []);
    assert [] + s == s;
  }

  lemma {:induction false} InDoubleQuotes(s: string, cur: string)
    ensures Scan(Backslashed(s) + "\"", cur, Some('\"'), true) == [cur + s]
    decreases |s|
  {
    hide Scan;
    var t := Backslashed(s) + "\"";
    ScanStep(t, cur, Some('\"'), true);
    if s == [] {
      assert t == "\"" && t[1..] == [];
      ScanEnd(cur, None, true);
      assert cur + s == cur;
    } else {
      var rest := Backslashed(s[1..]) + "\"";
      InDoubleQuotes(s[1..], cur + [s[0]]);
      assert cur + [s[0]] + s[1..] == cur + s;
      if s[0] == '\"' || s[0] == '\\' {
        assert t == ['\\', s[0]] + rest && t[2..] == rest;
      } else {
        assert t == [s[0]] + rest && t[1..] == rest;
      }
    }
  }
}
