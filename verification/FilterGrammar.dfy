/** The grammar of filters (src/rules/filter.ts): what the recursive-descent parser makes of a token
    list, and the theorem that printing a filter and reading it back keeps its meaning. */
module FilterGrammar {
  import opened Prelude
  import opened Text
  import opened FilterTokens

  /** The meaning of a filter, up to the atoms. */
  datatype Formula =
    | True
    | Test(code: string, arg: string)
    | Neg(inner: Formula)
    | Conj(left: Formula, right: Formula)
    | Disj(left: Formula, right: Formula)

  /** Truth under a valuation of the atoms. */
  predicate Holds(g: Formula, v: (string, string) -> bool) {
    match g
    case True => true
    case Test(code, arg) => v(code, arg)
    case Neg(inner) => !Holds(inner, v)
    case Conj(l, r) => Holds(l, v) && Holds(r, v)
    case Disj(l, r) => Holds(l, v) || Holds(r, v)
  }

  // ---- recursive descent, on the tokens not yet read ----

  datatype Read = Read(formula: Formula, rest: seq<Token>)

  function ParseOr(ts: seq<Token>): (r: Read)
    ensures |r.rest| <= |ts| && (ts != [] ==> |r.rest| < |ts|)
    decreases |ts|, 5
  {
    var left := ParseAnd(ts);
    OrTail(left.formula, left.rest)
  }

  function OrTail(left: Formula, ts: seq<Token>): (r: Read)
    ensures |r.rest| <= |ts|
    decreases |ts|, 4
  {
    if ts != [] && ts[0] == Or then
      var right := ParseAnd(ts[1..]);
      OrTail(Disj(left, right.formula), right.rest)
    else Read(left, ts)
  }

  function ParseAnd(ts: seq<Token>): (r: Read)
    ensures |r.rest| <= |ts| && (ts != [] ==> |r.rest| < |ts|)
    decreases |ts|, 3
  {
    var left := ParseUnary(ts);
    AndTail(left.formula, left.rest)
  }

  predicate StartsUnary(t: Token) {
    t.Atom? || t == Not || t == Open
  }

  function AndTail(left: Formula, ts: seq<Token>): (r: Read)
    ensures |r.rest| <= |ts|
    decreases |ts|, 2
  {
    if ts != [] && ts[0] == And then
      var right := ParseUnary(ts[1..]);
      AndTail(Conj(left, right.formula), right.rest)
    else if ts != [] && StartsUnary(ts[0]) then
      var right := ParseUnary(ts);
      AndTail(Conj(left, right.formula), right.rest)
    else Read(left, ts)
  }

  function ParseUnary(ts: seq<Token>): (r: Read)
    ensures |r.rest| <= |ts| && (ts != [] ==> |r.rest| < |ts|)
    decreases |ts|, 1
  {
    if ts != [] && ts[0] == Not then
      var inner := ParseUnary(ts[1..]);
      Read(Neg(inner.formula), inner.rest)
    else ParsePrimary(ts)
  }

  function ParsePrimary(ts: seq<Token>): (r: Read)
    ensures |r.rest| <= |ts| && (ts != [] ==> |r.rest| < |ts|)
    decreases |ts|, 0
  {
    if ts == [] then Read(True, ts)
    else if ts[0] == Open then
      var inner := ParseOr(ts[1..]);
      if inner.rest != [] && inner.rest[0] == Close then Read(inner.formula, inner.rest[1..]) else inner
    else if ts[0].Atom? then Read(Test(ts[0].code, ts[0].arg), ts[1..])
    else Read(True, ts[1..])
  }

  /** The formula a filter text compiles to. */
  function Compile(expr: string): Formula {
    if Trim(expr) == [] then True
    else
      var ts := Tokens(Trim(expr));
      if ts == [] then True else ParseOr(ts).formula
  }

  // ---- filters and how they are written ----

  /** A filter; each atom says how it is written, each conjunction whether with "&" or by juxtaposition,
      and Group marks parentheses that precedence does not call for. */
  datatype Expr =
    | AtomExpr(lexeme: Lexeme)
    | NotExpr(inner: Expr)
    | AndExpr(left: Expr, right: Expr, ampersand: bool)
    | OrExpr(left: Expr, right: Expr)
    | Group(inner: Expr)

  predicate Meaning(e: Expr, v: (string, string) -> bool) {
    match e
    case AtomExpr(x) => (match x
                         case Word(code, _, arg, _) => v(code, arg)
                         case Flag(code) => v(code, "")
                         case Naked(arg, _) => v("u", arg)
                         case Symbol(_) => true)
    case NotExpr(inner) => !Meaning(inner, v)
    case AndExpr(l, r, _) => Meaning(l, v) && Meaning(r, v)
    case OrExpr(l, r) => Meaning(l, v) || Meaning(r, v)
    case Group(inner) => Meaning(inner, v)
  }

  predicate WellFormed(e: Expr) {
    match e
    case AtomExpr(x) => !x.Symbol? && ValidLexeme(x)
    case NotExpr(inner) => WellFormed(inner)
    case AndExpr(l, r, _) => WellFormed(l) && WellFormed(r)
    case OrExpr(l, r) => WellFormed(l) && WellFormed(r)
    case Group(inner) => WellFormed(inner)
  }

  /** The binding strength a position asks for. */
  datatype Level = InOr | InAnd | InNot

  function Parenthesized(xs: seq<Lexeme>): seq<Lexeme> {
    [Symbol('(')] + xs + [Symbol(')')]
  }

  predicate NeedsParens(e: Expr, level: Level) {
    (e.AndExpr? && level == InNot) || (e.OrExpr? && level != InOr)
  }

  /** A filter printed with the parentheses that the precedence of ! over & over | needs, and no others. */
  function Print(e: Expr, level: Level): seq<Lexeme>
    decreases e, 1
  {
    var bare := PrintBare(e);
    if NeedsParens(e, level) then Parenthesized(bare) else bare
  }

  function PrintBare(e: Expr): seq<Lexeme>
    decreases e, 0
  {
    match e
    case AtomExpr(x) => [x]
    case NotExpr(inner) => [Symbol('!')] + Print(inner, InNot)
    case AndExpr(l, r, ampersand) =>
      Print(l, InAnd) + (if ampersand then [Symbol('&')] else []) + Print(r, InAnd)
    case OrExpr(l, r) => Print(l, InOr) + [Symbol('|')] + Print(r, InOr)
    case Group(inner) => Parenthesized(Print(inner, InOr))
  }

  // ---- the same printer on tokens ----

  function TokensAt(e: Expr, level: Level): seq<Token> {
    TokensOf(Print(e, level))
  }

  lemma {:induction false} TokensOfAppend(xs: seq<Lexeme>, ys: seq<Lexeme>)
    ensures TokensOf(xs + ys) == TokensOf(xs) + TokensOf(ys)
    decreases |xs|
  {
    hide TokenOf;
    if xs == [] {
      assert xs + ys == ys;
    } else {
      assert (xs + ys)[0] == xs[0] && (xs + ys)[1..] == xs[1..] + ys;
      TokensOfAppend(xs[1..], ys);
    }
  }

  lemma TokensOfOne(x: Lexeme)
    ensures TokensOf([x]) == [TokenOf(x)]
  {
    assert [x][1..] == [];
  }

  lemma TokensParenthesized(xs: seq<Lexeme>)
    ensures TokensOf(Parenthesized(xs)) == [Open] + TokensOf(xs) + [Close]
  {
    hide TokensOf;
    TokensOfOne(Symbol('('));
    TokensOfOne(Symbol(')'));
    TokensOfAppend([Symbol('(')] + xs, [Symbol(')')]);
    TokensOfAppend([Symbol('(')], xs);
  }

  /** The token lists by cases, as the parser meets them. */
  lemma TokensAtCases(e: Expr, level: Level)
    ensures NeedsParens(e, level) ==> TokensAt(e, level) == [Open] + TokensAt(e, InOr) + [Close]
    ensures !NeedsParens(e, level) ==> TokensAt(e, level) == TokensOf(PrintBare(e))
    ensures e.NotExpr? ==> TokensOf(PrintBare(e)) == [Not] + TokensAt(e.inner, InNot)
    ensures e.Group? ==> TokensOf(PrintBare(e)) == [Open] + TokensAt(e.inner, InOr) + [Close]
    ensures e.AtomExpr? ==> TokensOf(PrintBare(e)) == [TokenOf(e.lexeme)]
    ensures e.AndExpr? ==>
              TokensOf(PrintBare(e))
              == TokensAt(e.left, InAnd) + (if e.ampersand then [And] else []) + TokensAt(e.right, InAnd)
    ensures e.OrExpr? ==> TokensOf(PrintBare(e)) == TokensAt(e.left, InOr) + [Or] + TokensAt(e.right, InOr)
  {
    hide TokensOf, Parenthesized;
    if NeedsParens(e, level) {
      TokensParenthesized(PrintBare(e));
    }
    match e
    case AtomExpr(x) => TokensOfOne(x);
    case NotExpr(inner) =>
      TokensOfOne(Symbol('!'));
      TokensOfAppend([Symbol('!')], Print(inner, InNot));
    case AndExpr(l, r, ampersand) =>
      var sep := if ampersand then [Symbol('&')] else [];
      TokensOfOne(Symbol('&'));
      assert TokensOf([]) == [];
      TokensOfAppend(Print(l, InAnd) + sep, Print(r, InAnd));
      TokensOfAppend(Print(l, InAnd), sep);
    case OrExpr(l, r) =>
      TokensOfOne(Symbol('|'));
      TokensOfAppend(Print(l, InOr) + [Symbol('|')], Print(r, InOr));
      TokensOfAppend(Print(l, InOr), [Symbol('|')]);
    case Group(inner) =>
      TokensParenthesized(Print(inner, InOr));
  }

  /** A printed filter begins with a token that can begin a unary. */
  lemma {:induction false} StartsWell(e: Expr, level: Level)
    requires WellFormed(e)
    ensures TokensAt(e, level) != [] && StartsUnary(TokensAt(e, level)[0])
    decreases e
  {
    hide TokensAt, PrintBare, ValidLexeme;
    TokensAtCases(e, level);
    TokensAtCases(e, InOr);
    match e
    case AtomExpr(x) =>
    case NotExpr(inner) =>
    case AndExpr(l, r, _) => StartsWell(l, InAnd);
    case OrExpr(l, r) => StartsWell(l, InOr);
    case Group(inner) =>
  }

  // ---- reading a printed filter ----

  /** One conjunct: a unary joined to what has been read so far, and the loop after it. */
  function AndFrom(acc: Option<Formula>, ts: seq<Token>): Read {
    var u := ParseUnary(ts);
    AndTail(if acc.Some? then Conj(acc.value, u.formula) else u.formula, u.rest)
  }

  function OrFrom(acc: Option<Formula>, ts: seq<Token>): Read {
    var a := ParseAnd(ts);
    OrTail(if acc.Some? then Disj(acc.value, a.formula) else a.formula, a.rest)
  }

  /** Nothing that continues a conjunction. */
  predicate StopsAnd(rest: seq<Token>) {
    rest == [] || rest[0] == Or || rest[0] == Close
  }

  predicate AccHolds(acc: Option<Formula>, v: (string, string) -> bool, unit: bool) {
    if acc.Some? then Holds(acc.value, v) else unit
  }

  /** A filter in a position that binds tightly is read as one unary, whatever follows. */
  lemma {:induction false} ReadUnary(e: Expr, rest: seq<Token>, v: (string, string) -> bool) returns (g: Formula)
    requires WellFormed(e)
    ensures ParseUnary(TokensAt(e, InNot) + rest) == Read(g, rest)
    ensures Holds(g, v) == Meaning(e, v)
    decreases e, if e.AndExpr? || e.OrExpr? then 6 else 2
  {
    hide TokensAt, PrintBare, ValidLexeme, ParseOr, WellFormed, ParseUnary, ParsePrimary;
    var ts := TokensAt(e, InNot) + rest;
    TokensAtCases(e, InNot);
    match e
    case AtomExpr(x) =>
      g := ReadAtom(x, rest, v);
    case NotExpr(inner) =>
      assert WellFormed(inner) by { Parts(e); }
      assert ts[1..] == TokensAt(inner, InNot) + rest;
      var h := ReadUnary(inner, rest, v);
      g := Neg(h);
      UnaryNot(ts);
    case Group(inner) =>
      assert WellFormed(inner) by { Parts(e); }
      g := ReadParens(inner, rest, v);
      assert [Open] + TokensAt(inner, InOr) + [Close] + rest == ts;
    case AndExpr(l, r, _) =>
      g := ReadParens(e, rest, v);
      assert [Open] + TokensAt(e, InOr) + [Close] + rest == ts;
    case OrExpr(l, r) =>
      g := ReadParens(e, rest, v);
      assert [Open] + TokensAt(e, InOr) + [Close] + rest == ts;
  }

  lemma Parts(e: Expr)
    requires WellFormed(e)
    ensures (e.NotExpr? || e.Group?) ==> WellFormed(e.inner)
    ensures (e.AndExpr? || e.OrExpr?) ==> WellFormed(e.left) && WellFormed(e.right)
    ensures e.AtomExpr? ==> !e.lexeme.Symbol?
  {
    hide ValidLexeme;
  }

  lemma UnaryNot(ts: seq<Token>)
    requires ts != [] && ts[0] == Not
    ensures ParseUnary(ts) == Read(Neg(ParseUnary(ts[1..]).formula), ParseUnary(ts[1..]).rest)
  {
    hide ParsePrimary;
  }

  lemma ReadAtom(x: Lexeme, rest: seq<Token>, v: (string, string) -> bool) returns (g: Formula)
    requires WellFormed(AtomExpr(x))
    ensures ParseUnary([TokenOf(x)] + rest) == Read(g, rest)
    ensures Holds(g, v) == Meaning(AtomExpr(x), v)
  {
    hide ValidLexeme, ParseOr;
    var ts := [TokenOf(x)] + rest;
    assert ts[1..] == rest;
    g := Test(ts[0].code, ts[0].arg);
  }

  lemma {:induction false} ReadParens(e: Expr, rest: seq<Token>, v: (string, string) -> bool) returns (g: Formula)
    requires WellFormed(e)
    ensures ParseUnary([Open] + TokensAt(e, InOr) + [Close] + rest) == Read(g, rest)
    ensures Holds(g, v) == Meaning(e, v)
    decreases e, 5
  {
    hide TokensAt, WellFormed, Meaning, Holds;
    var ts := [Open] + TokensAt(e, InOr) + [Close] + rest;
    g := ReadOr(None, e, [Close] + rest, v);
    assert ts[1..] == TokensAt(e, InOr) + ([Close] + rest);
    OrFromNone(ts[1..]);
    StopOr(g, [Close] + rest);
    assert ([Close] + rest)[1..] == rest;
    ParensStep(ts, g);
  }

  lemma ParensStep(ts: seq<Token>, g: Formula)
    requires ts != [] && ts[0] == Open
    requires var inner := ParseOr(ts[1..]); inner.formula == g && inner.rest != [] && inner.rest[0] == Close
    ensures ParseUnary(ts) == Read(g, ParseOr(ts[1..]).rest[1..])
  {
    hide ParseOr;
  }

  lemma OrFromNone(ts: seq<Token>)
    ensures OrFrom(None, ts) == ParseOr(ts)
  {}

  lemma StopOr(g: Formula, rest: seq<Token>)
    requires rest == [] || rest[0] != Or
    ensures OrTail(g, rest) == Read(g, rest)
  {}

  lemma StopAnd(g: Formula, rest: seq<Token>)
    requires StopsAnd(rest)
    ensures AndTail(g, rest) == Read(g, rest)
  {}

  /** A filter in a conjunction adds its conjuncts to what has been read, whatever follows. */
  lemma {:induction false} ReadAnd(acc: Option<Formula>, e: Expr, rest: seq<Token>, v: (string, string) -> bool)
    returns (g: Formula)
    requires WellFormed(e)
    ensures AndFrom(acc, TokensAt(e, InAnd) + rest) == AndTail(g, rest)
    ensures Holds(g, v) == (AccHolds(acc, v, true) && Meaning(e, v))
    decreases e, if e.OrExpr? then 7 else 3
  {
    hide TokensAt, PrintBare, WellFormed, AndTail, ParseUnary, AndFrom;
    TokensAtCases(e, InAnd);
    if e.AndExpr? {
      Parts(e);
      var l, r := e.left, e.right;
      var tail := TokensAt(r, InAnd) + rest;
      var sep := if e.ampersand then [And] else [];
      var h := ReadAnd(acc, l, sep + tail, v);
      assert TokensAt(e, InAnd) + rest == TokensAt(l, InAnd) + (sep + tail);
      StartsWell(r, InAnd);
      AndContinues(h, e.ampersand, tail);
      g := ReadAnd(Some(h), r, rest, v);
    } else {
      TokensAtCases(e, InNot);
      var h := ReadUnary(e, rest, v);
      g := if acc.Some? then Conj(acc.value, h) else h;
      AndFromUnary(acc, TokensAt(e, InAnd) + rest);
    }
  }

  lemma AndFromUnary(acc: Option<Formula>, ts: seq<Token>)
    ensures var u := ParseUnary(ts);
            AndFrom(acc, ts) == AndTail(if acc.Some? then Conj(acc.value, u.formula) else u.formula, u.rest)
  {}

  lemma AndContinues(h: Formula, ampersand: bool, tail: seq<Token>)
    requires tail != [] && StartsUnary(tail[0])
    ensures AndTail(h, (if ampersand then [And] else []) + tail) == AndFrom(Some(h), tail)
  {
    hide ParseUnary;
    if ampersand {
      assert ([And] + tail)[1..] == tail;
    } else {
      assert [] + tail == tail;
    }
  }

  /** A filter in a disjunction adds its disjuncts to what has been read. */
  lemma {:induction false} ReadOr(acc: Option<Formula>, e: Expr, rest: seq<Token>, v: (string, string) -> bool)
    returns (g: Formula)
    requires WellFormed(e) && StopsAnd(rest)
    ensures OrFrom(acc, TokensAt(e, InOr) + rest) == OrTail(g, rest)
    ensures Holds(g, v) == (AccHolds(acc, v, false) || Meaning(e, v))
    decreases e, 4
  {
    hide TokensAt, PrintBare, WellFormed, OrTail, ParseAnd, OrFrom, AndFrom, AndTail;
    TokensAtCases(e, InOr);
    if e.OrExpr? {
      Parts(e);
      var l, r := e.left, e.right;
      var tail := TokensAt(r, InOr) + rest;
      var h := ReadOr(acc, l, [Or] + tail, v);
      assert TokensAt(e, InOr) + rest == TokensAt(l, InOr) + ([Or] + tail);
      OrContinues(h, tail);
      g := ReadOr(Some(h), r, rest, v);
    } else {
      TokensAtCases(e, InAnd);
      var h := ReadAnd(None, e, rest, v);
      AndFromNone(TokensAt(e, InAnd) + rest);
      StopAnd(h, rest);
      g := if acc.Some? then Disj(acc.value, h) else h;
      OrFromAnd(acc, TokensAt(e, InOr) + rest);
    }
  }

  lemma AndFromNone(ts: seq<Token>)
    ensures AndFrom(None, ts) == ParseAnd(ts)
  {}

  lemma OrFromAnd(acc: Option<Formula>, ts: seq<Token>)
    ensures var a := ParseAnd(ts);
            OrFrom(acc, ts) == OrTail(if acc.Some? then Disj(acc.value, a.formula) else a.formula, a.rest)
  {}

  lemma OrContinues(h: Formula, tail: seq<Token>)
    ensures OrTail(h, [Or] + tail) == OrFrom(Some(h), tail)
  {
    hide ParseAnd;
    assert ([Or] + tail)[1..] == tail;
  }

  /** Reading a printed filter back: the same truth value under every valuation of the atoms, and every
      token up to the end, or up to an unmatched closing parenthesis, has been used. */
  lemma ParsePrinted(e: Expr, rest: seq<Token>, v: (string, string) -> bool)
    requires WellFormed(e) && (rest == [] || rest[0] == Close)
    ensures var r := ParseOr(TokensAt(e, InOr) + rest);
            Holds(r.formula, v) == Meaning(e, v) && r.rest == rest
  {
    hide TokensAt, ParseOr, WellFormed, Meaning, Holds;
    var g := ReadOr(None, e, rest, v);
    OrFromNone(TokensAt(e, InOr) + rest);
    StopOr(g, rest);
  }

  /** Every token is read except from an unmatched closing parenthesis on. */
  lemma {:induction false} StopsAtClose(ts: seq<Token>)
    ensures var r := ParseOr(ts); r.rest != [] ==> r.rest[0] == Close
  {
    hide ParseAnd;
    var a := ParseAnd(ts);
    AndStops(ts);
    OrStops(a.formula, a.rest);
  }

  lemma {:induction false} OrStops(left: Formula, ts: seq<Token>)
    requires StopsAnd(ts)
    ensures var r := OrTail(left, ts); r.rest != [] ==> r.rest[0] == Close
    decreases |ts|
  {
    hide ParseAnd;
    if ts != [] && ts[0] == Or {
      var right := ParseAnd(ts[1..]);
      AndStops(ts[1..]);
      OrStops(Disj(left, right.formula), right.rest);
    }
  }

  lemma AndStops(ts: seq<Token>)
    ensures StopsAnd(ParseAnd(ts).rest)
  {
    hide ParseUnary;
    var u := ParseUnary(ts);
    AndTailStops(u.formula, u.rest);
  }

  lemma {:induction false} AndTailStops(left: Formula, ts: seq<Token>)
    ensures StopsAnd(AndTail(left, ts).rest)
    decreases |ts|
  {
    hide ParseUnary;
    if ts != [] && ts[0] == And {
      var right := ParseUnary(ts[1..]);
      AndTailStops(Conj(left, right.formula), right.rest);
    } else if ts != [] && StartsUnary(ts[0]) {
      var right := ParseUnary(ts);
      AndTailStops(Conj(left, right.formula), right.rest);
    }
  }

  // ---- from text to meaning ----

  lemma {:induction false} SplitLastGap(xs: seq<Lexeme>, gaps: seq<string>)
    requires |gaps| == |xs| + 1 && ValidLayout(xs, gaps)
    ensures var cut := gaps[|xs| := []];
            Render(xs, gaps) == Render(xs, cut) + gaps[|xs|] && ValidLayout(xs, cut) && AllSpace(gaps[|xs|])
    decreases |xs|
  {
    hide IsSpace, LexemeText, ValidLexeme, EndsBare, IsLetter;
    if xs != [] {
      SplitLastGap(xs[1..], gaps[1..]);
      assert gaps[|xs| := []][1..] == gaps[1..][|xs| - 1 := []];
    }
  }

  lemma SplitFirstGap(xs: seq<Lexeme>, gaps: seq<string>)
    requires |gaps| == |xs| + 1 && ValidLayout(xs, gaps) && xs != []
    ensures var cut := gaps[0 := []];
            Render(xs, gaps) == gaps[0] + Render(xs, cut) && ValidLayout(xs, cut)
  {
    hide IsSpace, LexemeText, ValidLexeme, MayFollow;
    assert gaps[0 := []][1..] == gaps[1..];
    assert gaps[0] + LexemeText(xs[0]) + Render(xs[1..], gaps[1..])
        == gaps[0] + ([] + LexemeText(xs[0]) + Render(xs[1..], gaps[1..]));
  }

  /** A lexeme neither begins nor ends with white space. */
  lemma LexemeTrimmed(x: Lexeme)
    requires ValidLexeme(x)
    ensures LexemeText(x) != [] && Trimmed(LexemeText(x))
  {
    var t := LexemeText(x);
    match x
    case Symbol(c) =>
      OperatorIsNoSpace(c);
    case Flag(code) =>
      TildeIsNoSpace();
      if code != [] {
        assert IsLetter(code[|code| - 1]);
        assert t[|t| - 1] == code[|code| - 1];
      }
    case Word(code, gap, arg, style) =>
      TildeIsNoSpace();
      ArgTextTrimmed(arg, style);
      var a := ArgText(arg, style);
      assert t[|t| - 1] == a[|a| - 1];
    case Naked(arg, style) =>
      ArgTextTrimmed(arg, style);
  }

  lemma ArgTextTrimmed(arg: string, style: Style)
    requires ValidArg(arg, style)
    ensures ArgText(arg, style) != [] && Trimmed(ArgText(arg, style))
  {
    if style.Bare? {
      assert !EndsBare(arg[0]) && !EndsBare(arg[|arg| - 1]);
    }
  }

  lemma {:induction false} RenderTrimmed(xs: seq<Lexeme>, gaps: seq<string>)
    requires |gaps| == |xs| + 1 && ValidLayout(xs, gaps) && xs != []
    requires gaps[|xs|] == []
    ensures var s := Render(xs, gaps); s != [] && !IsSpace(s[|s| - 1])
    ensures gaps[0] == [] ==> !IsSpace(Render(xs, gaps)[0])
    decreases |xs|
  {
    hide IsSpace, LexemeText, ValidLexeme, MayFollow;
    var rest := Render(xs[1..], gaps[1..]);
    LexemeTrimmed(xs[0]);
    var s := Render(xs, gaps);
    assert s == gaps[0] + (LexemeText(xs[0]) + rest);
    if |xs| > 1 {
      RenderTrimmed(xs[1..], gaps[1..]);
      assert s[|s| - 1] == rest[|rest| - 1];
    } else {
      assert rest == [];
    }
  }

  /** Compiling a laid-out text is parsing its lexemes; the surrounding white space is trimmed away. */
  lemma CompileLayout(xs: seq<Lexeme>, gaps: seq<string>)
    requires |gaps| == |xs| + 1 && ValidLayout(xs, gaps) && xs != []
    ensures Compile(Render(xs, gaps)) == ParseOr(TokensOf(xs)).formula
  {
    hide IsSpace, Render, ValidLayout, TokensOf, Tokens, ParseOr, Trim;
    var n := |xs|;
    SplitLastGap(xs, gaps);
    var g1 := gaps[n := []];
    SplitFirstGap(xs, g1);
    var g2 := g1[0 := []];
    var core := Render(xs, g2);
    RenderTrimmed(xs, g2);
    FirstGapIsSpace(xs, gaps);
    TrimPadded(gaps[0], core, gaps[n]);
    assert Trim(Render(xs, gaps)) == core;
    TokensOfLayout(xs, g2);
  }

  lemma FirstGapIsSpace(xs: seq<Lexeme>, gaps: seq<string>)
    requires |gaps| == |xs| + 1 && ValidLayout(xs, gaps)
    ensures AllSpace(gaps[0])
  {}

  lemma {:induction false} PrintNonempty(e: Expr, level: Level)
    requires WellFormed(e)
    ensures Print(e, level) != []
  {
    StartsWell(e, level);
  }

  /** The compiler theorem: print any filter with the parentheses precedence needs (and any extra ones),
      conjunction written with "&" or by juxtaposition, arguments quoted or bare, white space anywhere;
      compiling the text gives a formula with the truth value of the filter under every valuation. */
  lemma CompilePrinted(e: Expr, gaps: seq<string>, v: (string, string) -> bool)
    requires WellFormed(e)
    requires |gaps| == |Print(e, InOr)| + 1 && ValidLayout(Print(e, InOr), gaps)
    ensures Holds(Compile(Render(Print(e, InOr), gaps)), v) == Meaning(e, v)
  {
    hide Compile, Render, ValidLayout, ParseOr, WellFormed, Meaning, Holds, Print, TokensOf;
    PrintNonempty(e, InOr);
    CompileLayout(Print(e, InOr), gaps);
    ParsePrinted(e, [], v);
    assert TokensAt(e, InOr) + [] == TokensAt(e, InOr);
  }

  /** The comment on compileFilter promises match-all for invalid text. That is not what happens: an
      unmatched closing parenthesis drops the rest of the text and keeps what stands before it. */
  lemma InvalidIsNotMatchAll(v: (string, string) -> bool)
    ensures Compile("~s)~e") == Test("s", "")
    ensures v("s", "") == false ==> Holds(Compile("~s)~e"), v) != Holds(True, v)
  {
    hide Compile, Render, ValidLayout, TokensOf, ParseOr;
    StrayLayout();
    StrayTokens();
    CompileLayout(STRAY, [[], [], [], []]);
    StrayParse([Atom("e", "")]);
    assert [Atom("s", ""), Close] + [Atom("e", "")] == TokensOf(STRAY);
  }

  const STRAY: seq<Lexeme> := [Flag("s"), Symbol(')'), Flag("e")]

  lemma StrayLayout()
    ensures ValidLayout(STRAY, [[], [], [], []]) && Render(STRAY, [[], [], [], []]) == "~s)~e"
  {
    hide NeedsArg;
    var gaps: seq<string> := [[], [], [], []];
    assert NeedsArg("s") == NeedsArg("e") == false by { Flags(); }
    assert STRAY[2..] == [Flag("e")] && gaps[2..] == [[], []] && gaps[2..][1..] == [[]];
    assert Render(STRAY[2..], gaps[2..]) == "~e" && ValidLayout(STRAY[2..], gaps[2..]);
    assert STRAY[1..][1..] == STRAY[2..] && gaps[1..][1..] == gaps[2..];
    assert Render(STRAY[1..], gaps[1..]) == ")~e" && ValidLayout(STRAY[1..], gaps[1..]);
  }

  lemma Flags()
    ensures !NeedsArg("s") && !NeedsArg("e")
  {}

  lemma StrayTokens()
    ensures TokensOf(STRAY) == [Atom("s", ""), Close, Atom("e", "")]
  {
    assert STRAY == [Flag("s")] + ([Symbol(')')] + [Flag("e")]);
    TokensOfOne(Flag("s"));
    TokensOfOne(Symbol(')'));
    TokensOfOne(Flag("e"));
    TokensOfAppend([Flag("s")], [Symbol(')')] + [Flag("e")]);
    TokensOfAppend([Symbol(')')], [Flag("e")]);
  }

  lemma StrayParse(more: seq<Token>)
    ensures ParseOr([Atom("s", ""), Close] + more) == Read(Test("s", ""), [Close] + more)
  {
    var ts := [Atom("s", ""), Close] + more;
    assert ts[1..] == [Close] + more;
    assert ParseUnary(ts) == Read(Test("s", ""), ts[1..]);
    StopAnd(Test("s", ""), ts[1..]);
    StopOr(Test("s", ""), ts[1..]);
  }
}
