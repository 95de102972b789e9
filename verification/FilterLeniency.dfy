/** What compileFilter (src/rules/filter.ts) makes of any text at all, well formed or not: the parser never
    fails, so a text that no filter prints is given a meaning too. */
module FilterLeniency {
  import opened Prelude
  import opened Text
  import opened FilterTokens
  import opened FilterGrammar

  // ---- atoms are neither lost nor made up ----

  /** The atoms a formula tests, from left to right. */
  function Tests(g: Formula): seq<(string, string)> {
    match g
    case True => []
    case Test(code, arg) => [(code, arg)]
    case Neg(inner) => Tests(inner)
    case Conj(l, r) => Tests(l) + Tests(r)
    case Disj(l, r) => Tests(l) + Tests(r)
  }

  /** The atom tokens of a list, in order. */
  function AtomsIn(ts: seq<Token>): seq<(string, string)> {
    if ts == [] then [] else (if ts[0].Atom? then [(ts[0].code, ts[0].arg)] else []) + AtomsIn(ts[1..])
  }

  lemma AtomsStep(ts: seq<Token>)
    requires ts != []
    ensures AtomsIn(ts) == (if ts[0].Atom? then [(ts[0].code, ts[0].arg)] else []) + AtomsIn(ts[1..])
    ensures !ts[0].Atom? ==> AtomsIn(ts) == AtomsIn(ts[1..])
  {
    assert [] + AtomsIn(ts[1..]) == AtomsIn(ts[1..]);
  }

  lemma {:induction false} AtomsAppend(a: seq<Token>, b: seq<Token>)
    ensures AtomsIn(a + b) == AtomsIn(a) + AtomsIn(b)
    decreases |a|
  {
    if a == [] {
      assert a + b == b;
    } else {
      assert (a + b)[0] == a[0] && (a + b)[1..] == a[1..] + b;
      AtomsAppend(a[1..], b);
    }
  }

  /** What is left is the end of what there was. */
  predicate IsTail(rest: seq<Token>, ts: seq<Token>) {
    |rest| <= |ts| && ts[|ts| - |rest|..] == rest
  }

  lemma TailOfTail(a: seq<Token>, b: seq<Token>, c: seq<Token>)
    requires IsTail(a, b) && IsTail(b, c)
    ensures IsTail(a, c)
  {
    assert c[|c| - |b|..][|b| - |a|..] == c[|c| - |a|..];
  }

  lemma TailAfterOne(a: seq<Token>, b: seq<Token>)
    requires b != [] && IsTail(a, b[1..])
    ensures IsTail(a, b)
  {
    assert b[1..][|b| - 1 - |a|..] == b[|b| - |a|..];
  }

  /** A step of the parser accounts for every atom between where it began and where it stopped. */
  ghost predicate Accounts(before: seq<(string, string)>, ts: seq<Token>, r: Read) {
    Tests(r.formula) + AtomsIn(r.rest) == before + AtomsIn(ts) && IsTail(r.rest, ts)
  }

  lemma {:induction false} OrAccounts(ts: seq<Token>)
    ensures Accounts([], ts, ParseOr(ts))
    decreases |ts|, 5
  {
    hide ParseAnd, OrTail, Tests, AtomsIn;
    var left := ParseAnd(ts);
    AndAccounts(ts);
    OrTailAccounts(left.formula, left.rest);
    TailOfTail(ParseOr(ts).rest, left.rest, ts);
  }

  lemma {:induction false} OrTailAccounts(left: Formula, ts: seq<Token>)
    ensures Accounts(Tests(left), ts, OrTail(left, ts))
    decreases |ts|, 4
  {
    hide ParseAnd, AtomsIn;
    if ts != [] && ts[0] == Or {
      var right := ParseAnd(ts[1..]);
      AtomsStep(ts);
      AndAccounts(ts[1..]);
      OrTailAccounts(Disj(left, right.formula), right.rest);
      Regroup(Tests(left), Tests(right.formula), AtomsIn(right.rest), AtomsIn(ts[1..]));
      TailOfTail(OrTail(left, ts).rest, right.rest, ts[1..]);
      TailAfterOne(OrTail(left, ts).rest, ts);
    }
  }

  lemma Regroup<T>(a: seq<T>, b: seq<T>, c: seq<T>, d: seq<T>)
    requires b + c == [] + d
    ensures (a + b) + c == a + d
  {
    assert [] + d == d;
    assert (a + b) + c == a + (b + c);
  }

  lemma {:induction false} AndAccounts(ts: seq<Token>)
    ensures Accounts([], ts, ParseAnd(ts))
    decreases |ts|, 3
  {
    hide ParseUnary, AndTail, Tests, AtomsIn;
    var left := ParseUnary(ts);
    UnaryAccounts(ts);
    AndTailAccounts(left.formula, left.rest);
    TailOfTail(ParseAnd(ts).rest, left.rest, ts);
  }

  lemma {:induction false} AndTailAccounts(left: Formula, ts: seq<Token>)
    ensures Accounts(Tests(left), ts, AndTail(left, ts))
    decreases |ts|, 2
  {
    hide ParseUnary, AtomsIn;
    if ts != [] && ts[0] == And {
      var right := ParseUnary(ts[1..]);
      AtomsStep(ts);
      UnaryAccounts(ts[1..]);
      AndTailAccounts(Conj(left, right.formula), right.rest);
      Regroup(Tests(left), Tests(right.formula), AtomsIn(right.rest), AtomsIn(ts[1..]));
      TailOfTail(AndTail(left, ts).rest, right.rest, ts[1..]);
      TailAfterOne(AndTail(left, ts).rest, ts);
    } else if ts != [] && StartsUnary(ts[0]) {
      var right := ParseUnary(ts);
      UnaryAccounts(ts);
      AndTailAccounts(Conj(left, right.formula), right.rest);
      Regroup(Tests(left), Tests(right.formula), AtomsIn(right.rest), AtomsIn(ts));
      TailOfTail(AndTail(left, ts).rest, right.rest, ts);
    }
  }

  lemma {:induction false} UnaryAccounts(ts: seq<Token>)
    ensures Accounts([], ts, ParseUnary(ts))
    decreases |ts|, 1
  {
    hide ParsePrimary, AtomsIn;
    if ts != [] && ts[0] == Not {
      AtomsStep(ts);
      UnaryAccounts(ts[1..]);
      TailAfterOne(ParseUnary(ts[1..]).rest, ts);
    } else {
      PrimaryAccounts(ts);
    }
  }

  lemma {:induction false} PrimaryAccounts(ts: seq<Token>)
    ensures Accounts([], ts, ParsePrimary(ts))
    decreases |ts|, 0
  {
    hide ParseOr, AtomsIn;
    if ts != [] {
      AtomsStep(ts);
      assert IsTail(ts[1..], ts);
      if ts[0] == Open {
        var inner := ParseOr(ts[1..]);
        OrAccounts(ts[1..]);
        TailAfterOne(inner.rest, ts);
        if inner.rest != [] && inner.rest[0] == Close {
          AtomsStep(inner.rest);
          assert IsTail(inner.rest[1..], inner.rest);
          TailOfTail(inner.rest[1..], inner.rest, ts);
        }
      }
    }
  }

  /** The tokens of a text, and those of them that the parser reads. */
  function TokensOfText(expr: string): seq<Token> {
    Tokens(Trim(expr))
  }

  function ReadPart(ts: seq<Token>): seq<Token> {
    ts[..|ts| - |ParseOr(ts).rest|]
  }

  /** On every token list the tests of the formula are exactly the atom tokens of the part read, in order. */
  lemma TestsAreAtoms(ts: seq<Token>)
    ensures Tests(ParseOr(ts).formula) == AtomsIn(ReadPart(ts)) && ts == ReadPart(ts) + ParseOr(ts).rest
  {
    hide ParseOr, Tests, AtomsIn;
    var r := ParseOr(ts);
    OrAccounts(ts);
    assert ts == ReadPart(ts) + r.rest;
    AtomsAppend(ReadPart(ts), r.rest);
    SameFront(Tests(r.formula), AtomsIn(ReadPart(ts)), AtomsIn(r.rest));
  }

  lemma SameFront<T>(a: seq<T>, b: seq<T>, c: seq<T>)
    requires a + c == [] + (b + c)
    ensures a == b
  {
    assert |a + c| == |b + c|;
    assert a == (a + c)[..|a|] && b == ([] + (b + c))[..|b|];
  }

  lemma CompileIsParse(expr: string)
    ensures Compile(expr) == ParseOr(TokensOfText(expr)).formula
  {
    hide Tokens, Trim;
    NoTokens();
    EmptyParse();
  }

  lemma EmptyParse()
    ensures ParseOr([]) == Read(True, [])
  {
    assert ParseUnary([]) == Read(True, []);
    assert ParseAnd([]) == Read(True, []);
  }

  // ---- what decides whether a text matches everything ----

  /** The truth of a formula depends on the atoms it tests and on nothing else. */
  lemma {:induction false} OnlyTestsMatter(g: Formula, v: (string, string) -> bool, w: (string, string) -> bool)
    requires forall i | 0 <= i < |Tests(g)| :: v(Tests(g)[i].0, Tests(g)[i].1) == w(Tests(g)[i].0, Tests(g)[i].1)
    ensures Holds(g, v) == Holds(g, w)
    decreases g
  {
    match g
    case True =>
    case Test(code, arg) => assert Tests(g)[0] == (code, arg);
    case Neg(inner) =>
      assert Tests(g) == Tests(inner);
      OnlyTestsMatter(inner, v, w);
    case Conj(l, r) => BothMatter(g, l, r, v, w);
    case Disj(l, r) => BothMatter(g, l, r, v, w);
  }

  lemma {:induction false} BothMatter(g: Formula, l: Formula, r: Formula, v: (string, string) -> bool,
                                      w: (string, string) -> bool)
    requires g == Conj(l, r) || g == Disj(l, r)
    requires forall i | 0 <= i < |Tests(g)| :: v(Tests(g)[i].0, Tests(g)[i].1) == w(Tests(g)[i].0, Tests(g)[i].1)
    ensures Holds(l, v) == Holds(l, w) && Holds(r, v) == Holds(r, w)
    decreases g, 0
  {
    assert forall i | 0 <= i < |Tests(l)| :: Tests(l)[i] == Tests(g)[i];
    assert forall i | 0 <= i < |Tests(r)| :: Tests(r)[i] == Tests(g)[|Tests(l)| + i];
    OnlyTestsMatter(l, v, w);
    OnlyTestsMatter(r, v, w);
  }

  /** The valuation under which exactly these atoms hold. */
  function Only(atoms: set<(string, string)>): (string, string) -> bool {
    (code, arg) => (code, arg) in atoms
  }

  function AtomSet(ts: seq<Token>): set<(string, string)> {
    set a | a in AtomsIn(ts)
  }

  /** A text matches everything if and only if it holds whichever of the atoms in the part read hold: finitely
      many cases, which can be tried on the text alone. */
  lemma MatchAllIff(expr: string)
    ensures (forall v: (string, string) -> bool :: Holds(Compile(expr), v))
            <==> forall atoms | atoms <= AtomSet(ReadPart(TokensOfText(expr))) :: Holds(Compile(expr), Only(atoms))
  {
    hide Compile, ParseOr, Tests, AtomsIn, Holds;
    var ts := TokensOfText(expr);
    var g := Compile(expr);
    CompileIsParse(expr);
    TestsAreAtoms(ts);
    forall v: (string, string) -> bool
      | forall atoms | atoms <= AtomSet(ReadPart(ts)) :: Holds(g, Only(atoms))
      ensures Holds(g, v)
    {
      var atoms := set a | a in AtomSet(ReadPart(ts)) && v(a.0, a.1);
      OnlyTestsMatter(g, v, Only(atoms));
    }
  }

  /** The compiled text tests no atom exactly when no atom token stands in the part read; then it gives one answer
      for all flows, and that answer is yes when no "!" stands there either. */
  lemma AtomFree(expr: string)
    ensures var part := ReadPart(TokensOfText(expr));
            Tests(Compile(expr)) == AtomsIn(part) &&
            (Tests(Compile(expr)) == [] <==> forall i | 0 <= i < |part| :: !part[i].Atom?)
    ensures var part := ReadPart(TokensOfText(expr));
            (forall i | 0 <= i < |part| :: !part[i].Atom?) ==>
              forall v: (string, string) -> bool :: Holds(Compile(expr), v) == Holds(Compile(expr), Only({}))
    ensures var part := ReadPart(TokensOfText(expr));
            (forall i | 0 <= i < |part| :: !part[i].Atom? && part[i] != Not) ==>
              forall v: (string, string) -> bool :: Holds(Compile(expr), v)
  {
    hide Compile, ParseOr, Tests, AtomsIn, Holds;
    var ts := TokensOfText(expr);
    var part := ReadPart(ts);
    var g := Compile(expr);
    CompileIsParse(expr);
    TestsAreAtoms(ts);
    NoAtomsIff(part);
    if forall i | 0 <= i < |part| :: !part[i].Atom? {
      forall v: (string, string) -> bool
        ensures Holds(g, v) == Holds(g, Only({}))
      {
        OnlyTestsMatter(g, v, Only({}));
      }
      if forall i | 0 <= i < |part| :: part[i] != Not {
        NotsRead(ts);
        NoNotsIff(part);
        forall v: (string, string) -> bool
          ensures Holds(g, v)
        {
          PositiveHolds(g, v);
        }
      }
    }
  }

  lemma {:induction false} NoAtomsIff(ts: seq<Token>)
    ensures AtomsIn(ts) == [] <==> forall i | 0 <= i < |ts| :: !ts[i].Atom?
    decreases |ts|
  {
    if ts != [] {
      NoAtomsIff(ts[1..]);
      assert forall i | 0 < i < |ts| :: ts[i] == ts[1..][i - 1];
      assert forall i | 0 <= i < |ts[1..]| :: ts[1..][i] == ts[i + 1];
    }
  }

  // ---- negations ----

  function Negations(g: Formula): nat {
    match g
    case True => 0
    case Test(_, _) => 0
    case Neg(inner) => 1 + Negations(inner)
    case Conj(l, r) => Negations(l) + Negations(r)
    case Disj(l, r) => Negations(l) + Negations(r)
  }

  function NotsIn(ts: seq<Token>): nat {
    if ts == [] then 0 else (if ts[0] == Not then 1 else 0) + NotsIn(ts[1..])
  }

  lemma {:induction false} NotsAppend(a: seq<Token>, b: seq<Token>)
    ensures NotsIn(a + b) == NotsIn(a) + NotsIn(b)
    decreases |a|
  {
    if a == [] {
      assert a + b == b;
    } else {
      assert (a + b)[0] == a[0] && (a + b)[1..] == a[1..] + b;
      NotsAppend(a[1..], b);
    }
  }

  lemma {:induction false} NoNotsIff(ts: seq<Token>)
    ensures NotsIn(ts) == 0 <==> forall i | 0 <= i < |ts| :: ts[i] != Not
    decreases |ts|
  {
    if ts != [] {
      NoNotsIff(ts[1..]);
      assert forall i | 0 < i < |ts| :: ts[i] == ts[1..][i - 1];
      assert forall i | 0 <= i < |ts[1..]| :: ts[1..][i] == ts[i + 1];
    }
  }

  /** A stray "!" is taken for a negation wherever one may stand, and skipped nowhere: the parser reads no more of
      them than it negates, and no fewer. */
  lemma NotsRead(ts: seq<Token>)
    ensures Negations(ParseOr(ts).formula) == NotsIn(ReadPart(ts))
  {
    hide ParseOr, Negations, NotsIn;
    OrNegates(ts);
    OrAccounts(ts);
    assert ts == ReadPart(ts) + ParseOr(ts).rest;
    NotsAppend(ReadPart(ts), ParseOr(ts).rest);
  }

  lemma {:induction false} OrNegates(ts: seq<Token>)
    ensures var r := ParseOr(ts); Negations(r.formula) + NotsIn(r.rest) == NotsIn(ts)
    decreases |ts|, 5
  {
    hide ParseAnd, OrTail, Negations, NotsIn;
    AndNegates(ts);
    OrTailNegates(ParseAnd(ts).formula, ParseAnd(ts).rest);
  }

  lemma {:induction false} OrTailNegates(left: Formula, ts: seq<Token>)
    ensures var r := OrTail(left, ts); Negations(r.formula) + NotsIn(r.rest) == Negations(left) + NotsIn(ts)
    decreases |ts|, 4
  {
    hide ParseAnd;
    if ts != [] && ts[0] == Or {
      var right := ParseAnd(ts[1..]);
      AndNegates(ts[1..]);
      OrTailNegates(Disj(left, right.formula), right.rest);
    }
  }

  lemma {:induction false} AndNegates(ts: seq<Token>)
    ensures var r := ParseAnd(ts); Negations(r.formula) + NotsIn(r.rest) == NotsIn(ts)
    decreases |ts|, 3
  {
    hide ParseUnary, AndTail, Negations, NotsIn;
    UnaryNegates(ts);
    AndTailNegates(ParseUnary(ts).formula, ParseUnary(ts).rest);
  }

  lemma {:induction false} AndTailNegates(left: Formula, ts: seq<Token>)
    ensures var r := AndTail(left, ts); Negations(r.formula) + NotsIn(r.rest) == Negations(left) + NotsIn(ts)
    decreases |ts|, 2
  {
    hide ParseUnary;
    if ts != [] && ts[0] == And {
      var right := ParseUnary(ts[1..]);
      UnaryNegates(ts[1..]);
      AndTailNegates(Conj(left, right.formula), right.rest);
    } else if ts != [] && StartsUnary(ts[0]) {
      var right := ParseUnary(ts);
      UnaryNegates(ts);
      AndTailNegates(Conj(left, right.formula), right.rest);
    }
  }

  lemma {:induction false} UnaryNegates(ts: seq<Token>)
    ensures var r := ParseUnary(ts); Negations(r.formula) + NotsIn(r.rest) == NotsIn(ts)
    decreases |ts|, 1
  {
    hide ParsePrimary;
    if ts != [] && ts[0] == Not {
      UnaryNegates(ts[1..]);
    } else {
      PrimaryNegates(ts);
    }
  }

  lemma {:induction false} PrimaryNegates(ts: seq<Token>)
    requires ts == [] || ts[0] != Not
    ensures var r := ParsePrimary(ts); Negations(r.formula) + NotsIn(r.rest) == NotsIn(ts)
    decreases |ts|, 0
  {
    hide ParseOr;
    if ts != [] && ts[0] == Open {
      OrNegates(ts[1..]);
    }
  }

  lemma {:induction false} PositiveHolds(g: Formula, v: (string, string) -> bool)
    requires Negations(g) == 0 && Tests(g) == []
    ensures Holds(g, v)
    decreases g
  {
    match g
    case True =>
    case Conj(l, r) =>
      PositiveHolds(l, v);
      PositiveHolds(r, v);
    case Disj(l, r) => PositiveHolds(l, v);
  }

  /** A text of nothing but "!": an even number of them matches every flow, an odd number none. So "!" alone, which
      no filter prints, matches nothing. */
  lemma {:induction false} Bangs(n: nat, v: (string, string) -> bool)
    ensures Holds(Compile(Repeated(n)), v) <==> n % 2 == 0
  {
    hide Compile, ParseOr, ParseUnary, Holds, Trim, Tokens;
    CompileIsParse(Repeated(n));
    BangsTrimmed(n);
    BangTokens(n);
    var ts := seq(n, _ => Not);
    BangsUnary(n, v);
    OneUnary(ts);
  }

  function Repeated(n: nat): string {
    seq(n, _ => '!')
  }

  lemma BangsTrimmed(n: nat)
    ensures Trim(Repeated(n)) == Repeated(n)
  {
    assert !IsSpace('!');
  }

  lemma {:induction false} BangTokens(n: nat)
    ensures Tokens(Repeated(n)) == seq(n, _ => Not)
    decreases n
  {
    hide IsSpace;
    if n > 0 {
      assert !IsSpace('!') && IsOperator('!') by { BangIsOperator(); }
      assert Repeated(n)[1..] == Repeated(n - 1);
      TokensStep(Repeated(n));
      BangTokens(n - 1);
    }
  }

  lemma BangIsOperator()
    ensures !IsSpace('!') && IsOperator('!') && OperatorToken('!') == Not
  {}

  lemma {:induction false} BangsUnary(n: nat, v: (string, string) -> bool)
    ensures var r := ParseUnary(seq(n, _ => Not)); r.rest == [] && (Holds(r.formula, v) <==> n % 2 == 0)
    decreases n
  {
    var ts: seq<Token> := seq(n, _ => Not);
    if n > 0 {
      assert ts[1..] == seq(n - 1, _ => Not);
      BangsUnary(n - 1, v);
    }
  }

  lemma OneUnary(ts: seq<Token>)
    requires ParseUnary(ts).rest == []
    ensures ParseOr(ts).formula == ParseUnary(ts).formula
  {
    hide ParseUnary;
    var u := ParseUnary(ts);
    assert AndTail(u.formula, []) == Read(u.formula, []);
    assert ParseAnd(ts) == Read(u.formula, []);
    assert OrTail(u.formula, []) == Read(u.formula, []);
  }
}
