/** The line diff of src/api/diff.ts: a table of common-subsequence lengths filled from the end, and a
    greedy walk through it. */
module Diff {
  import opened Prelude

  datatype Op = Same | Add | Del

  datatype Line = Line(op: Op, text: string)

  // ---- the declarative side: subsequences and edit scripts ----

  /** "c" is what remains of "s" after dropping some lines. */
  predicate Subsequence(c: seq<string>, s: seq<string>) {
    c == [] || (s != [] && ((c[0] == s[0] && Subsequence(c[1..], s[1..])) || Subsequence(c, s[1..])))
  }

  /** The text an edit script reads (op Del or Same) or writes (op Add or Same). */
  function Spelled(script: seq<Line>, op: Op): seq<string> {
    if script == [] then []
    else (if script[0].op == Same || script[0].op == op then [script[0].text] else []) + Spelled(script[1..], op)
  }

  /** The script turns "a" into "b". */
  predicate IsScript(script: seq<Line>, a: seq<string>, b: seq<string>) {
    Spelled(script, Del) == a && Spelled(script, Add) == b
  }

  function Kept(script: seq<Line>): seq<string> {
    if script == [] then []
    else (if script[0].op == Same then [script[0].text] else []) + Kept(script[1..])
  }

  /** Insertions and deletions: the cost of a script. */
  function Cost(script: seq<Line>): nat {
    if script == [] then 0 else (if script[0].op == Same then 0 else 1) + Cost(script[1..])
  }

  // ---- the table and the walk ----

  /** The recurrence behind the table. */
  function Lcs(a: seq<string>, b: seq<string>): nat {
    if a == [] || b == [] then 0
    else if a[0] == b[0] then Lcs(a[1..], b[1..]) + 1
    else Max(Lcs(a[1..], b), Lcs(a, b[1..]))
  }

  function Deletions(a: seq<string>): seq<Line> {
    if a == [] then [] else [Line(Del, a[0])] + Deletions(a[1..])
  }

  function Additions(b: seq<string>): seq<Line> {
    if b == [] then [] else [Line(Add, b[0])] + Additions(b[1..])
  }

  /** The greedy walk; on a tie it deletes. */
  function Walk(a: seq<string>, b: seq<string>): seq<Line> {
    if a == [] then Additions(b)
    else if b == [] then Deletions(a)
    else if a[0] == b[0] then [Line(Same, a[0])] + Walk(a[1..], b[1..])
    else if Lcs(a[1..], b) >= Lcs(a, b[1..]) then [Line(Del, a[0])] + Walk(a[1..], b)
    else [Line(Add, b[0])] + Walk(a, b[1..])
  }

  /** The table: cell (i, j) holds the length for the two suffixes. */
  ghost predicate IsTable(a: seq<string>, b: seq<string>, lcs: array2<nat>)
    reads lcs
  {
    lcs.Length0 == |a| + 1 && lcs.Length1 == |b| + 1 &&
    forall i, j | 0 <= i <= |a| && 0 <= j <= |b| :: lcs[i, j] == Lcs(a[i..], b[j..])
  }

  lemma TableAt(a: seq<string>, b: seq<string>, lcs: array2<nat>, i: nat, j: nat)
    requires IsTable(a, b, lcs) && i < |a| && j < |b|
    ensures lcs.Length0 == |a| + 1 && lcs.Length1 == |b| + 1
    ensures lcs[i + 1, j] == Lcs(a[i + 1..], b[j..]) && lcs[i, j + 1] == Lcs(a[i..], b[j + 1..])
  {}

  method FillTable(a: seq<string>, b: seq<string>, lcs: array2<nat>)
    requires lcs.Length0 == |a| + 1 && lcs.Length1 == |b| + 1
    requires forall i, j | 0 <= i <= |a| && 0 <= j <= |b| :: lcs[i, j] == 0
    modifies lcs
    ensures IsTable(a, b, lcs)
  {
    hide Lcs;
    var n, m := |a|, |b|;
    EmptyRows(a, b);
    var i := n - 1;
    while i >= 0
      invariant -1 <= i < n
      invariant forall r, c | i < r <= n && 0 <= c <= m :: lcs[r, c] == Lcs(a[r..], b[c..])
      invariant forall r, c | 0 <= r <= i && 0 <= c <= m :: lcs[r, c] == 0
    {
      var j := m - 1;
      while j >= 0
        invariant -1 <= j < m
        invariant forall r, c | i < r <= n && 0 <= c <= m :: lcs[r, c] == Lcs(a[r..], b[c..])
        invariant forall c | j < c <= m :: lcs[i, c] == Lcs(a[i..], b[c..])
        invariant forall r, c | 0 <= r < i && 0 <= c <= m :: lcs[r, c] == 0
      {
        LcsStep(a, b, i, j);
        lcs[i, j] := if a[i] == b[j] then lcs[i + 1, j + 1] + 1 else Max(lcs[i + 1, j], lcs[i, j + 1]);
        j := j - 1;
      }
      i := i - 1;
    }
  }

  lemma EmptyRows(a: seq<string>, b: seq<string>)
    ensures forall c | 0 <= c <= |b| :: Lcs(a[|a|..], b[c..]) == 0
    ensures forall r | 0 <= r <= |a| :: Lcs(a[r..], b[|b|..]) == 0
  {}

  lemma LcsStep(a: seq<string>, b: seq<string>, i: nat, j: nat)
    requires i < |a| && j < |b|
    ensures Lcs(a[i..], b[j..])
            == if a[i] == b[j] then Lcs(a[i + 1..], b[j + 1..]) + 1
               else Max(Lcs(a[i + 1..], b[j..]), Lcs(a[i..], b[j + 1..]))
  {
    assert a[i..][1..] == a[i + 1..] && b[j..][1..] == b[j + 1..];
  }

  lemma WalkStep(a: seq<string>, b: seq<string>, i: nat, j: nat)
    requires i < |a| && j < |b|
    ensures Walk(a[i..], b[j..])
            == if a[i] == b[j] then [Line(Same, a[i])] + Walk(a[i + 1..], b[j + 1..])
               else if Lcs(a[i + 1..], b[j..]) >= Lcs(a[i..], b[j + 1..])
               then [Line(Del, a[i])] + Walk(a[i + 1..], b[j..])
               else [Line(Add, b[j])] + Walk(a[i..], b[j + 1..])
  {
    assert a[i..][1..] == a[i + 1..] && b[j..][1..] == b[j + 1..];
  }

  lemma WalkEnd(a: seq<string>, b: seq<string>)
    ensures Walk([], b) == Additions(b) && Walk(a, []) == Deletions(a)
  {}

  /** The table fill and the walk of diffLines, on the real two-dimensional table. */
  method DiffLines(a: seq<string>, b: seq<string>) returns (out: seq<Line>)
    ensures out == Walk(a, b)
  {
    hide Walk, Additions, Deletions;
    var n, m := |a|, |b|;
    var lcs := new nat[n + 1, m + 1]((i, j) => 0);
    FillTable(a, b, lcs);
    var i, j;
    out, i, j := Greedy(a, b, lcs);
    WalkEnd(a[i..], b[j..]);
    EndingEmpty(a, b);
    ghost var added := Additions(b[j..]);
    while i < n
      invariant 0 <= i <= n
      invariant out + (Deletions(a[i..]) + added) == Walk(a, b)
    {
      DeletionsStep(a, i);
      assert Deletions(a[i..]) + added == [Line(Del, a[i])] + (Deletions(a[i + 1..]) + added);
      out := out + [Line(Del, a[i])];
      i := i + 1;
    }
    while j < m
      invariant 0 <= j <= m
      invariant out + Additions(b[j..]) == Walk(a, b)
    {
      AdditionsStep(b, j);
      out := out + [Line(Add, b[j])];
      j := j + 1;
    }
  }

  /** The loop over both inputs; it stops when one of them is used up. */
  method Greedy(a: seq<string>, b: seq<string>, lcs: array2<nat>) returns (out: seq<Line>, i: nat, j: nat)
    requires IsTable(a, b, lcs)
    ensures i <= |a| && j <= |b| && (i == |a| || j == |b|)
    ensures out + Walk(a[i..], b[j..]) == Walk(a, b)
  {
    hide Lcs, Walk, IsTable;
    out, i, j := [], 0, 0;
    assert a[0..] == a && b[0..] == b;
    while i < |a| && j < |b|
      invariant i <= |a| && j <= |b|
      invariant out + Walk(a[i..], b[j..]) == Walk(a, b)
      decreases |a| - i + |b| - j
    {
      WalkStep(a, b, i, j);
      TableAt(a, b, lcs, i, j);
      if a[i] == b[j] {
        out := out + [Line(Same, a[i])];
        i, j := i + 1, j + 1;
      } else if lcs[i + 1, j] >= lcs[i, j + 1] {
        out := out + [Line(Del, a[i])];
        i := i + 1;
      } else {
        out := out + [Line(Add, b[j])];
        j := j + 1;
      }
    }
  }

  lemma EndingEmpty(a: seq<string>, b: seq<string>)
    ensures Deletions(a[|a|..]) == [] && Additions(b[|b|..]) == []
  {}

  lemma DeletionsStep(a: seq<string>, i: nat)
    requires i < |a|
    ensures Deletions(a[i..]) == [Line(Del, a[i])] + Deletions(a[i + 1..])
  {
    assert a[i..][1..] == a[i + 1..];
  }

  lemma AdditionsStep(b: seq<string>, j: nat)
    requires j < |b|
    ensures Additions(b[j..]) == [Line(Add, b[j])] + Additions(b[j + 1..])
  {
    assert b[j..][1..] == b[j + 1..];
  }

  // ---- the diff is a script, and no script is better ----

  /** The same and deleted lines spell the first input, the same and added lines the second. */
  lemma {:induction false} WalkIsScript(a: seq<string>, b: seq<string>)
    ensures IsScript(Walk(a, b), a, b)
    decreases |a| + |b|
  {
    hide Lcs;
    if a == [] {
      AdditionsSpell(b);
    } else if b == [] {
      DeletionsSpell(a);
    } else {
      var w := Walk(a, b);
      assert [a[0]] + a[1..] == a && [b[0]] + b[1..] == b;
      if a[0] == b[0] {
        WalkIsScript(a[1..], b[1..]);
        assert w[1..] == Walk(a[1..], b[1..]);
      } else if Lcs(a[1..], b) >= Lcs(a, b[1..]) {
        WalkIsScript(a[1..], b);
        assert w[1..] == Walk(a[1..], b);
      } else {
        WalkIsScript(a, b[1..]);
        assert w[1..] == Walk(a, b[1..]);
      }
    }
  }

  lemma {:induction false} AdditionsSpell(b: seq<string>)
    ensures Spelled(Additions(b), Add) == b && Spelled(Additions(b), Del) == [] && Kept(Additions(b)) == []
  {
    if b != [] {
      AdditionsSpell(b[1..]);
      assert Additions(b)[1..] == Additions(b[1..]);
    }
  }

  lemma {:induction false} DeletionsSpell(a: seq<string>)
    ensures Spelled(Deletions(a), Del) == a && Spelled(Deletions(a), Add) == [] && Kept(Deletions(a)) == []
  {
    if a != [] {
      DeletionsSpell(a[1..]);
      assert Deletions(a)[1..] == Deletions(a[1..]);
    }
  }

  /** The walk keeps as many lines as the table promises. */
  lemma {:induction false} WalkKeepsLcs(a: seq<string>, b: seq<string>)
    ensures |Kept(Walk(a, b))| == Lcs(a, b)
    decreases |a| + |b|
  {
    if a == [] {
      AdditionsSpell(b);
    } else if b == [] {
      DeletionsSpell(a);
    } else {
      var w := Walk(a, b);
      if a[0] == b[0] {
        WalkKeepsLcs(a[1..], b[1..]);
        assert w[1..] == Walk(a[1..], b[1..]);
      } else if Lcs(a[1..], b) >= Lcs(a, b[1..]) {
        WalkKeepsLcs(a[1..], b);
        assert w[1..] == Walk(a[1..], b);
      } else {
        WalkKeepsLcs(a, b[1..]);
        assert w[1..] == Walk(a, b[1..]);
      }
    }
  }

  lemma {:induction false} SubsequenceTail(c: seq<string>, s: seq<string>)
    requires c != [] && s != [] && Subsequence(c, s)
    ensures Subsequence(c[1..], s[1..])
    decreases |s|
  {
    if !(c[0] == s[0] && Subsequence(c[1..], s[1..])) {
      assert Subsequence(c, s[1..]);
      DropFirst(c, s[1..]);
    }
  }

  lemma {:induction false} DropFirst(c: seq<string>, s: seq<string>)
    requires c != [] && Subsequence(c, s)
    ensures Subsequence(c[1..], s)
    decreases |s|
  {
    if Subsequence(c, s[1..]) {
      DropFirst(c, s[1..]);
    }
  }

  /** No common subsequence is longer than the recurrence says. */
  lemma {:induction false} LcsIsMaximal(c: seq<string>, a: seq<string>, b: seq<string>)
    requires Subsequence(c, a) && Subsequence(c, b)
    ensures |c| <= Lcs(a, b)
    decreases |a| + |b|
  {
    if c != [] {
      if a[0] == b[0] {
        SubsequenceTail(c, a);
        SubsequenceTail(c, b);
        LcsIsMaximal(c[1..], a[1..], b[1..]);
      } else if c[0] == a[0] {
        LcsIsMaximal(c, a, b[1..]);
      } else {
        LcsIsMaximal(c, a[1..], b);
      }
    }
  }

  lemma NothingIsCommon()
    ensures Subsequence([], [])
  {}

  /** The kept lines of any script are a common subsequence of what it reads and what it writes. */
  lemma {:induction false} KeptIsCommon(script: seq<Line>)
    ensures Subsequence(Kept(script), Spelled(script, Del)) && Subsequence(Kept(script), Spelled(script, Add))
    ensures Cost(script) == |Spelled(script, Del)| + |Spelled(script, Add)| - 2 * |Kept(script)|
  {
    hide Subsequence;
    if script == [] {
      assert Subsequence([], []) by {
        NothingIsCommon();
      }
    } else {
      KeptIsCommon(script[1..]);
      var k, d, i := Kept(script[1..]), Spelled(script[1..], Del), Spelled(script[1..], Add);
      var t := script[0].text;
      SubsequenceCons(t, k, d);
      SubsequenceCons(t, k, i);
      assert k == [] + k && d == [] + d && i == [] + i;
    }
  }

  lemma SubsequenceCons(t: string, c: seq<string>, s: seq<string>)
    requires Subsequence(c, s)
    ensures Subsequence([t] + c, [t] + s) && Subsequence(c, [t] + s)
  {
    assert ([t] + c)[1..] == c && ([t] + s)[1..] == s;
  }

  /** Optimality: the same lines of the diff are a longest common subsequence of the two inputs, and no
      edit script from "a" to "b" has fewer insertions and deletions. */
  lemma DiffIsOptimal(a: seq<string>, b: seq<string>)
    ensures var kept := Kept(Walk(a, b));
            Subsequence(kept, a) && Subsequence(kept, b) &&
            forall c | Subsequence(c, a) && Subsequence(c, b) :: |c| <= |kept|
    ensures forall script | IsScript(script, a, b) :: Cost(Walk(a, b)) <= Cost(script)
  {
    hide Walk, Lcs, Subsequence, Kept, Cost, Spelled;
    WalkIsScript(a, b);
    WalkKeepsLcs(a, b);
    KeptIsCommon(Walk(a, b));
    forall c | Subsequence(c, a) && Subsequence(c, b)
      ensures |c| <= |Kept(Walk(a, b))|
    {
      LcsIsMaximal(c, a, b);
    }
    forall script | IsScript(script, a, b)
      ensures Cost(Walk(a, b)) <= Cost(script)
    {
      KeptIsCommon(script);
      LcsIsMaximal(Kept(script), a, b);
    }
  }

  /** Two inputs are reported as unchanged exactly when they are equal. */
  lemma {:induction false} UnchangedIffEqual(a: seq<string>, b: seq<string>)
    ensures Cost(Walk(a, b)) == 0 <==> a == b
  {
    hide Walk;
    WalkIsScript(a, b);
    if Cost(Walk(a, b)) == 0 {
      FreeScript(Walk(a, b));
    }
    if a == b {
      var same := Unchanged(a);
      UnchangedIsFree(a);
      DiffIsOptimal(a, b);
      assert Cost(Walk(a, b)) <= Cost(same);
    }
  }

  lemma {:induction false} FreeScript(script: seq<Line>)
    requires Cost(script) == 0
    ensures Spelled(script, Del) == Spelled(script, Add)
  {
    if script != [] {
      FreeScript(script[1..]);
    }
  }

  function Unchanged(a: seq<string>): seq<Line> {
    if a == [] then [] else [Line(Same, a[0])] + Unchanged(a[1..])
  }

  lemma {:induction false} UnchangedIsFree(a: seq<string>)
    ensures IsScript(Unchanged(a), a, a) && Cost(Unchanged(a)) == 0
  {
    if a != [] {
      UnchangedIsFree(a[1..]);
      assert Unchanged(a)[1..] == Unchanged(a[1..]);
    }
  }

  // ---- deletions come first ----

  /** A longer second input has no shorter common subsequence. */
  lemma LcsGrows(a: seq<string>, b: seq<string>)
    requires b != []
    ensures Lcs(a, b[1..]) <= Lcs(a, b)
  {
    hide Walk, Lcs, Subsequence, Kept;
    var c := Kept(Walk(a, b[1..]));
    DiffIsOptimal(a, b[1..]);
    WalkKeepsLcs(a, b[1..]);
    SubsequenceCons(b[0], c, b[1..]);
    assert [b[0]] + b[1..] == b;
    LcsIsMaximal(c, a, b);
  }

  predicate DeletionsLead(w: seq<Line>) {
    forall k | 0 < k < |w| :: w[k - 1].op == Add ==> w[k].op != Del
  }

  /** Between two lines that are the same the deleted lines stand before the added ones: no added line is directly
      followed by a deleted one. */
  lemma {:induction false} DeletionsComeFirst(a: seq<string>, b: seq<string>)
    ensures DeletionsLead(Walk(a, b))
    decreases |a| + |b|
  {
    hide Lcs, DeletionsLead;
    if a == [] {
      AllAdditions(b);
    } else if b == [] {
      AllDeletions(a);
    } else if a[0] == b[0] {
      DeletionsComeFirst(a[1..], b[1..]);
      Prepended(Line(Same, a[0]), Walk(a[1..], b[1..]));
    } else if Lcs(a[1..], b) >= Lcs(a, b[1..]) {
      DeletionsComeFirst(a[1..], b);
      Prepended(Line(Del, a[0]), Walk(a[1..], b));
    } else {
      DeletionsComeFirst(a, b[1..]);
      NotDeletedNext(a, b);
      Prepended(Line(Add, b[0]), Walk(a, b[1..]));
    }
  }

  lemma Prepended(first: Line, w: seq<Line>)
    requires DeletionsLead(w)
    requires first.op == Add && w != [] ==> w[0].op != Del
    ensures DeletionsLead([first] + w)
  {}

  /** After a line that had to be added, deleting cannot be as good. */
  lemma NotDeletedNext(a: seq<string>, b: seq<string>)
    requires a != [] && b != [] && a[0] != b[0] && Lcs(a[1..], b) < Lcs(a, b[1..])
    ensures var w := Walk(a, b[1..]); w != [] ==> w[0].op != Del
  {
    LcsGrows(a[1..], b);
  }

  lemma {:induction false} AllAdditions(b: seq<string>)
    ensures forall i | 0 <= i < |Additions(b)| :: Additions(b)[i].op == Add
    ensures DeletionsLead(Additions(b))
    decreases |b|
  {
    if b != [] {
      AllAdditions(b[1..]);
    }
  }

  lemma {:induction false} AllDeletions(a: seq<string>)
    ensures forall i | 0 <= i < |Deletions(a)| :: Deletions(a)[i].op == Del
    ensures DeletionsLead(Deletions(a))
    decreases |a|
  {
    if a != [] {
      AllDeletions(a[1..]);
    }
  }
}
