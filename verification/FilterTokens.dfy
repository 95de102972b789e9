/** The character tokenizer of the filter language (src/rules/filter.ts), and the layouts of a filter
    text that it reads back exactly. */
module FilterTokens {
  import opened Prelude
  import opened Text

  datatype Token =
    | Atom(code: string, arg: string)
    | Open | Close | And | Or | Not

  predicate IsOperator(c: char) {
    c == '(' || c == ')' || c == '&' || c == '|' || c == '!'
  }

  function OperatorToken(c: char): Token {
    if c == '(' then Open else if c == ')' then Close else if c == '&' then And else if c == '|' then Or else Not
  }

  /** Characters that end an unquoted argument. An opening parenthesis is not one of them. */
  predicate EndsBare(c: char) {
    IsSpace(c) || c == '&' || c == '|' || c == ')'
  }

  predicate IsLetter(c: char) {
    'a' <= c <= 'z'
  }

  predicate NeedsArg(code: string) {
    code !in ["q", "s", "a", "e", "marked", "websocket", "http", "tcp"]
  }

  // ---- what the tokenizer computes, as functions of the remaining text ----

  /** Length of the longest prefix of lower-case letters. */
  function LettersLength(s: string): (n: nat)
    ensures n <= |s|
  {
    if s != [] && IsLetter(s[0]) then 1 + LettersLength(s[1..]) else 0
  }

  function BareLength(s: string): (n: nat)
    ensures n <= |s|
  {
    if s != [] && !EndsBare(s[0]) then 1 + BareLength(s[1..]) else 0
  }

  function QuotedLength(s: string, quote: char): (n: nat)
    ensures n <= |s|
  {
    if s != [] && s[0] != quote then 1 + QuotedLength(s[1..], quote) else 0
  }

  datatype Arg = Arg(text: string, rest: string)

  /** An argument; a quote that is never closed runs to the end of the text. */
  function ReadArg(s: string): (r: Arg)
    ensures |r.rest| <= |s|
    ensures s != [] && !EndsBare(s[0]) ==> |r.rest| < |s|
  {
    if s != [] && IsQuote(s[0]) then
      var n := QuotedLength(s[1..], s[0]);
      Arg(s[1..1 + n], s[Min(n + 2, |s|)..])
    else
      var n := BareLength(s);
      Arg(s[..n], s[n..])
  }

  /** The argument after an atom's code letters, if the code takes one and one is there. */
  function AtomArg(code: string, s: string): (r: Arg)
    ensures |r.rest| <= |s|
  {
    if !NeedsArg(code) then Arg("", s)
    else
      var t := TrimLeft(s);
      TrimLeftShrinks(s);
      if t == [] || t[0] == '&' || t[0] == '|' || t[0] == ')' then Arg("", t) else ReadArg(t)
  }

  lemma TrimLeftShrinks(s: string)
    ensures |TrimLeft(s)| <= |s|
  {}

  function Tokens(s: string): seq<Token>
    decreases |s|
  {
    if s == [] then []
    else if IsSpace(s[0]) then Tokens(s[1..])
    else if IsOperator(s[0]) then [OperatorToken(s[0])] + Tokens(s[1..])
    else if s[0] == '~' then
      var n := LettersLength(s[1..]);
      var code := s[1..1 + n];
      var arg := AtomArg(code, s[1 + n..]);
      [Atom(code, arg.text)] + Tokens(arg.rest)
    else
      var arg := ReadArg(s);
      [Atom("u", arg.text)] + Tokens(arg.rest)
  }

  // ---- the tokenizer itself ----

  method Tokenize(input: string) returns (tokens: seq<Token>)
    ensures tokens == Tokens(input)
  {
    hide IsSpace, Tokens, ReadArg, NeedsArg, TrimLeft, LettersLength, AtomArg, IsOperator, OperatorToken;
    tokens := [];
    var i := 0;
    var n := |input|;
    assert input[0..] == input;
    while i < n
      invariant 0 <= i <= n
      invariant tokens + Tokens(input[i..]) == Tokens(input)
      decreases n - i
    {
      var ch := input[i];
      TokensStep(input[i..]);
      assert input[i..][1..] == input[i + 1..];
      if IsSpace(ch) {
        i := i + 1;
        continue;
      }
      if IsOperator(ch) {
        tokens := tokens + [OperatorToken(ch)];
        i := i + 1;
        continue;
      }
      if ch == '~' {
        ghost var letters := LettersLength(input[i + 1..]);
        assert input[i..][1..1 + letters] == input[i + 1..i + 1 + letters];
        assert input[i..][1 + letters..] == input[i + 1 + letters..];
        var atom;
        atom, i := ReadAtom(input, i + 1);
        tokens := tokens + [atom];
        continue;
      }
      var arg;
      arg, i := ReadArgument(input, i);
      tokens := tokens + [Atom("u", arg)];
    }
    assert input[i..] == [];
    NoTokens();
  }

  lemma NoTokens()
    ensures Tokens([]) == []
  {}

  lemma TokensStep(s: string)
    requires s != []
    ensures IsSpace(s[0]) ==> Tokens(s) == Tokens(s[1..])
    ensures !IsSpace(s[0]) && IsOperator(s[0]) ==> Tokens(s) == [OperatorToken(s[0])] + Tokens(s[1..])
    ensures !IsSpace(s[0]) && s[0] == '~' ==>
              var n := LettersLength(s[1..]);
              var arg := AtomArg(s[1..1 + n], s[1 + n..]);
              Tokens(s) == [Atom(s[1..1 + n], arg.text)] + Tokens(arg.rest)
    ensures !IsSpace(s[0]) && !IsOperator(s[0]) && s[0] != '~' ==>
              var arg := ReadArg(s);
              Tokens(s) == [Atom("u", arg.text)] + Tokens(arg.rest) && |arg.rest| < |s|
  {
    hide IsSpace, AtomArg, ReadArg, LettersLength;
  }

  /** The body of the "~" branch: code letters, white space, argument. */
  method ReadAtom(input: string, start: nat) returns (atom: Token, i: nat)
    requires start <= |input|
    ensures start <= i <= |input|
    ensures var n := LettersLength(input[start..]);
            var code := input[start..start + n];
            var arg := AtomArg(code, input[start + n..]);
            atom == Atom(code, arg.text) && input[i..] == arg.rest
  {
    hide IsSpace, ReadArg, NeedsArg, IsLetter;
    i := start;
    while i < |input| && IsLetter(input[i])
      invariant start <= i <= |input|
      invariant i + LettersLength(input[i..]) == start + LettersLength(input[start..])
    {
      assert input[i..][1..] == input[i + 1..];
      i := i + 1;
    }
    var code := input[start..i];
    ghost var after := i;
    assert after == start + LettersLength(input[start..]);
    assert TrimLeft(input[i..]) == TrimLeft(input[after..]);
    while i < |input| && IsSpace(input[i]) && NeedsArg(code)
      invariant after <= i <= |input|
      invariant TrimLeft(input[i..]) == TrimLeft(input[after..])
      invariant !NeedsArg(code) ==> i == after
    {
      assert input[i..][1..] == input[i + 1..];
      i := i + 1;
    }
    var arg := "";
    if NeedsArg(code) {
      assert TrimLeft(input[i..]) == input[i..];
      if i < |input| && input[i] != '&' && input[i] != '|' && input[i] != ')' {
        arg, i := ReadArgument(input, i);
      }
    }
    atom := Atom(code, arg);
    assert AtomArg(code, input[after..]) == Arg(arg, input[i..]);
  }

  method ReadArgument(input: string, start: nat) returns (arg: string, i: nat)
    requires start < |input|
    ensures start <= i <= |input|
    ensures var r := ReadArg(input[start..]);
            arg == r.text && input[i..] == r.rest
  {
    hide IsSpace, EndsBare;
    i := start;
    if IsQuote(input[i]) {
      var quote := input[i];
      i := i + 1;
      while i < |input| && input[i] != quote
        invariant start + 1 <= i <= |input|
        invariant i + QuotedLength(input[i..], quote) == start + 1 + QuotedLength(input[start + 1..], quote)
      {
        assert input[i..][1..] == input[i + 1..];
        i := i + 1;
      }
      arg := input[start + 1..i];
      assert input[start..][1..] == input[start + 1..];
      assert input[start..][1..1 + (i - start - 1)] == arg;
      i := Min(i + 1, |input|);
    } else {
      while i < |input| && !EndsBare(input[i])
        invariant start <= i <= |input|
        invariant i + BareLength(input[i..]) == start + BareLength(input[start..])
      {
        assert input[i..][1..] == input[i + 1..];
        i := i + 1;
      }
      arg := input[start..i];
      assert input[start..][..i - start] == arg;
    }
  }

  // ---- laying out a token list as text ----

  datatype Style = Quoted(quote: char) | Bare

  /** How one token is written. */
  datatype Lexeme =
    | Symbol(c: char)
    | Flag(code: string)
    | Word(code: string, gap: string, arg: string, style: Style)
    | Naked(arg: string, style: Style)

  function TokenOf(x: Lexeme): Token {
    match x
    case Symbol(c) => OperatorToken(c)
    case Flag(code) => Atom(code, "")
    case Word(code, _, arg, _) => Atom(code, arg)
    case Naked(arg, _) => Atom("u", arg)
  }

  function ArgText(arg: string, style: Style): string {
    match style
    case Quoted(q) => [q] + arg + [q]
    case Bare => arg
  }

  function LexemeText(x: Lexeme): string {
    match x
    case Symbol(c) => [c]
    case Flag(code) => "~" + code
    case Word(code, gap, arg, style) => "~" + code + gap + ArgText(arg, style)
    case Naked(arg, style) => ArgText(arg, style)
  }

  /** The argument can be written this way: a quoted one does not hold its quote, a bare one is not
      empty, does not begin with a quote and holds no character that would end it. */
  predicate ValidArg(arg: string, style: Style) {
    match style
    case Quoted(q) => IsQuote(q) && q !in arg
    case Bare => arg != [] && !IsQuote(arg[0]) && forall c | c in arg :: !EndsBare(c)
  }

  predicate ValidLexeme(x: Lexeme) {
    match x
    case Symbol(c) => IsOperator(c)
    case Flag(code) => (forall c | c in code :: IsLetter(c)) && !NeedsArg(code)
    case Word(code, gap, arg, style) =>
      (forall c | c in code :: IsLetter(c)) && NeedsArg(code) && AllSpace(gap) && ValidArg(arg, style) &&
      (style.Bare? ==> gap != [] || !IsLetter(arg[0]))
    case Naked(arg, style) =>
      ValidArg(arg, style) && (style.Bare? ==> !IsOperator(arg[0]) && arg[0] != '~')
  }

  /** What may come directly after a lexeme: a bare argument must be ended, and a flag must not be
      continued by further letters. */
  predicate MayFollow(x: Lexeme, rest: string) {
    ((x.Word? || x.Naked?) && x.style.Bare? ==> BareEnds(rest)) &&
    (x.Flag? ==> NoLetterFirst(rest))
  }

  predicate BareEnds(rest: string) {
    rest == [] || EndsBare(rest[0])
  }

  predicate NoLetterFirst(s: string) {
    s == [] || !IsLetter(s[0])
  }

  /** White space before each lexeme and after the last one. */
  function Render(xs: seq<Lexeme>, gaps: seq<string>): string
    requires |gaps| == |xs| + 1
    decreases |xs|
  {
    if xs == [] then gaps[0] else gaps[0] + LexemeText(xs[0]) + Render(xs[1..], gaps[1..])
  }

  /** Gaps are white space, and may be empty wherever the neighbours allow it. */
  predicate ValidLayout(xs: seq<Lexeme>, gaps: seq<string>)
    requires |gaps| == |xs| + 1
    decreases |xs|
  {
    AllSpace(gaps[0]) &&
    (xs != [] ==>
       ValidLexeme(xs[0]) && ValidLayout(xs[1..], gaps[1..]) && MayFollow(xs[0], Render(xs[1..], gaps[1..])))
  }

  function TokensOf(xs: seq<Lexeme>): (r: seq<Token>)
    ensures |r| == |xs|
  {
    if xs == [] then [] else [TokenOf(xs[0])] + TokensOf(xs[1..])
  }

  lemma {:induction false} LettersRead(code: string, rest: string)
    requires forall c | c in code :: IsLetter(c)
    requires rest == [] || !IsLetter(rest[0])
    ensures LettersLength(code + rest) == |code|
    decreases |code|
  {
    if code == [] {
      assert code + rest == rest;
    } else {
      assert IsLetter(code[0]);
      assert (code + rest)[1..] == code[1..] + rest;
      LettersRead(code[1..], rest);
    }
  }

  lemma {:induction false} BareRead(arg: string, rest: string)
    requires (forall c | c in arg :: !EndsBare(c)) && BareEnds(rest)
    ensures BareLength(arg + rest) == |arg|
    decreases |arg|
  {
    hide EndsBare;
    if arg == [] {
      assert arg + rest == rest;
    } else {
      assert !EndsBare(arg[0]);
      assert (arg + rest)[1..] == arg[1..] + rest;
      BareRead(arg[1..], rest);
    }
  }

  lemma {:induction false} QuotedRead(arg: string, quote: char, rest: string)
    requires quote !in arg
    ensures QuotedLength(arg + [quote] + rest, quote) == |arg|
    decreases |arg|
  {
    var s := arg + [quote] + rest;
    if arg != [] {
      assert arg[0] != quote;
      assert s[1..] == arg[1..] + [quote] + rest;
      QuotedRead(arg[1..], quote, rest);
    }
  }

  lemma ReadArgText(arg: string, style: Style, rest: string)
    requires ValidArg(arg, style) && (style.Bare? ==> BareEnds(rest))
    ensures ReadArg(ArgText(arg, style) + rest) == Arg(arg, rest)
  {
    hide EndsBare;
    var s := ArgText(arg, style) + rest;
    match style
    case Quoted(q) =>
      QuotedRead(arg, q, rest);
      assert s[1..] == arg + [q] + rest;
      assert s[1..1 + |arg|] == arg;
      assert s[|arg| + 2..] == rest;
    case Bare =>
      BareRead(arg, rest);
      assert s[0] == arg[0];
      assert s[..|arg|] == arg;
      assert s[|arg|..] == rest;
  }

  lemma ArgTextStart(arg: string, style: Style)
    requires ValidArg(arg, style)
    ensures ArgText(arg, style) != []
    ensures !EndsBare(ArgText(arg, style)[0])
    ensures style.Quoted? ==> IsQuote(ArgText(arg, style)[0])
    ensures style.Bare? ==> ArgText(arg, style)[0] == arg[0]
  {
    if style.Bare? {
      assert arg[0] in arg;
    }
  }

  lemma {:induction false} SkipGap(gap: string, s: string)
    requires AllSpace(gap)
    ensures Tokens(gap + s) == Tokens(s)
    decreases |gap|
  {
    hide IsSpace;
    if gap == [] {
      assert gap + s == s;
    } else {
      assert IsSpace(gap[0]);
      assert (gap + s)[1..] == gap[1..] + s;
      TokensStep(gap + s);
      SkipGap(gap[1..], s);
    }
  }

  /** An atom is its code letters and then whatever AtomArg makes of the rest. */
  lemma AtomRead(code: string, t: string)
    requires (forall c | c in code :: IsLetter(c)) && NoLetterFirst(t)
    ensures var arg := AtomArg(code, t);
            Tokens("~" + code + t) == [Atom(code, arg.text)] + Tokens(arg.rest)
  {
    hide Tokens, IsSpace, AtomArg, IsLetter;
    var s := "~" + code + t;
    assert s[1..] == code + t;
    LettersRead(code, t);
    assert s[1..1 + |code|] == code && s[1 + |code|..] == t;
    TildeIsNoSpace();
    TokensStep(s);
  }

  lemma AtomArgRead(code: string, gap: string, arg: string, style: Style, rest: string)
    requires NeedsArg(code) && AllSpace(gap) && ValidArg(arg, style) && (style.Bare? ==> BareEnds(rest))
    ensures AtomArg(code, gap + (ArgText(arg, style) + rest)) == Arg(arg, rest)
  {
    hide IsSpace, ReadArg, NeedsArg, AllSpace, ValidArg, ArgText, TrimLeft;
    var body := ArgText(arg, style) + rest;
    TrimLeftPadded(gap, body);
    BodyStart(arg, style, rest);
    ReadArgText(arg, style, rest);
  }

  lemma WordRead(code: string, gap: string, arg: string, style: Style, rest: string)
    requires ValidLexeme(Word(code, gap, arg, style)) && (style.Bare? ==> BareEnds(rest))
    ensures Tokens(LexemeText(Word(code, gap, arg, style)) + rest) == [Atom(code, arg)] + Tokens(rest)
  {
    hide Tokens, IsSpace, AllSpace, ValidArg, ArgText, AtomArg, NeedsArg, EndsBare, IsLetter;
    var t := gap + (ArgText(arg, style) + rest);
    AtomStart(gap, arg, style, rest);
    AtomRead(code, t);
    AtomArgRead(code, gap, arg, style, rest);
    assert LexemeText(Word(code, gap, arg, style)) + rest == "~" + code + t;
  }

  lemma TildeIsNoSpace()
    ensures !IsSpace('~')
  {}

  /** What follows the code letters does not begin with a letter. */
  lemma AtomStart(gap: string, arg: string, style: Style, rest: string)
    requires AllSpace(gap) && ValidArg(arg, style) && (style.Bare? ==> gap != [] || !IsLetter(arg[0]))
    ensures var t := gap + (ArgText(arg, style) + rest); t != [] && !IsLetter(t[0])
  {
    ArgTextStart(arg, style);
    if gap != [] {
      assert IsSpace(gap[0]);
    }
  }

  /** The argument text is not taken for white space, an operator that ends an atom, or nothing. */
  lemma BodyStart(arg: string, style: Style, rest: string)
    requires ValidArg(arg, style)
    ensures var t := ArgText(arg, style) + rest;
            t != [] && TrimLeft(t) == t && t[0] != '&' && t[0] != '|' && t[0] != ')'
  {
    ArgTextStart(arg, style);
  }

  lemma LexemeRead(x: Lexeme, rest: string)
    requires ValidLexeme(x) && MayFollow(x, rest)
    ensures Tokens(LexemeText(x) + rest) == [TokenOf(x)] + Tokens(rest)
  {
    hide Tokens, IsSpace, ReadArg, NeedsArg, EndsBare, IsLetter;
    var s := LexemeText(x) + rest;
    match x
    case Symbol(c) =>
      OperatorIsNoSpace(c);
      TokensStep(s);
      assert s[1..] == rest;
    case Flag(code) =>
      AtomRead(code, rest);
    case Word(code, gap, arg, style) =>
      WordRead(code, gap, arg, style, rest);
    case Naked(arg, style) =>
      NakedStart(arg, style, rest);
      ReadArgText(arg, style, rest);
      TokensStep(s);
  }

  lemma OperatorIsNoSpace(c: char)
    requires IsOperator(c)
    ensures !IsSpace(c)
  {}

  lemma NakedStart(arg: string, style: Style, rest: string)
    requires ValidLexeme(Naked(arg, style))
    ensures var s := ArgText(arg, style) + rest;
            s != [] && !IsSpace(s[0]) && !IsOperator(s[0]) && s[0] != '~'
  {
    ArgTextStart(arg, style);
  }

  /** Tokenizing a laid-out text gives back its tokens. */
  lemma {:induction false} TokensOfLayout(xs: seq<Lexeme>, gaps: seq<string>)
    requires |gaps| == |xs| + 1 && ValidLayout(xs, gaps)
    ensures Tokens(Render(xs, gaps)) == TokensOf(xs)
    decreases |xs|
  {
    hide Tokens, LexemeText, IsSpace, ValidLexeme, MayFollow;
    if xs == [] {
      SkipGap(gaps[0], []);
      assert gaps[0] + [] == gaps[0];
      NoTokens();
    } else {
      var rest := Render(xs[1..], gaps[1..]);
      assert Render(xs, gaps) == gaps[0] + (LexemeText(xs[0]) + rest);
      SkipGap(gaps[0], LexemeText(xs[0]) + rest);
      LexemeRead(xs[0], rest);
      TokensOfLayout(xs[1..], gaps[1..]);
    }
  }
}
