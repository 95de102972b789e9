/** The bounded flow store with its id index (src/flow/store.ts). */
module Store {
  import opened Prelude

  /** A stored flow, by its identifier and its identity. */
  datatype Flow = Flow(id: string, serial: nat)

  datatype State = State(flows: seq<Flow>, byId: map<string, Flow>, max: nat)

  /** Drop from the front until the list fits. */
  function Trimmed(s: State): (t: State)
    ensures |t.flows| <= t.max && t.max == s.max
    decreases |s.flows|
  {
    if |s.flows| <= s.max then s
    else Trimmed(s.(flows := s.flows[1..], byId := s.byId - {s.flows[0].id}))
  }

  function IndexById(flows: seq<Flow>, id: string): (r: Option<nat>)
    ensures r.Some? ==> r.value < |flows| && flows[r.value].id == id
    ensures r.None? ==> forall i | 0 <= i < |flows| :: flows[i].id != id
  {
    if flows == [] then None
    else if flows[0].id == id then Some(0)
    else match IndexById(flows[1..], id)
         case None => assert forall i | 1 <= i < |flows| :: flows[i] == flows[1..][i - 1]; None
         case Some(i) => Some(i + 1)
  }

  datatype Op = Add(flow: Flow) | Remove(id: string) | SetMax(max: nat) | Clear

  function Step(s: State, op: Op): State {
    match op
    case Add(f) => Trimmed(s.(flows := s.flows + [f], byId := s.byId[f.id := f]))
    case Remove(id) =>
      (match IndexById(s.flows, id)
       case None => s
       case Some(i) => s.(flows := s.flows[..i] + s.flows[i + 1..], byId := s.byId - {id}))
    case SetMax(max) => Trimmed(s.(max := max))
    case Clear => s.(flows := [], byId := map[])
  }

  class FlowStore {
    var flows: seq<Flow>
    var byId: map<string, Flow>
    var max: nat

    constructor (max: nat)
      ensures Snapshot() == State([], map[], max)
    {
      flows, byId, this.max := [], map[], max;
    }

    function Snapshot(): State
      reads this
    {
      State(flows, byId, max)
    }

    method Trim()
      modifies this`flows, this`byId
      ensures Snapshot() == Trimmed(old(Snapshot()))
    {
      while |flows| > max
        invariant Trimmed(Snapshot()) == Trimmed(old(Snapshot()))
        invariant max == old(max)
        decreases |flows|
      {
        var dropped := flows[0];
        flows := flows[1..];
        byId := byId - {dropped.id};
      }
    }

    method AddFlow(flow: Flow)
      modifies this`flows, this`byId
      ensures Snapshot() == Step(old(Snapshot()), Add(flow))
    {
      flows := flows + [flow];
      byId := byId[flow.id := flow];
      Trim();
    }

    method SetMaximum(max: nat)
      modifies this
      ensures Snapshot() == Step(old(Snapshot()), SetMax(max))
    {
      this.max := max;
      Trim();
    }

    method ClearAll()
      modifies this`flows, this`byId
      ensures Snapshot() == Step(old(Snapshot()), Clear)
    {
      flows := [];
      byId := map[];
    }

    method RemoveFlow(id: string) returns (found: bool)
      modifies this`flows, this`byId
      ensures Snapshot() == Step(old(Snapshot()), Remove(id))
      ensures found <==> exists i | 0 <= i < |old(flows)| :: old(flows)[i].id == id
    {
      var idx := IndexById(flows, id);
      if idx.None? {
        return false;
      }
      flows := flows[..idx.value] + flows[idx.value + 1..];
      byId := byId - {id};
      return true;
    }

    method Get(id: string) returns (r: Option<Flow>)
      ensures r == Lookup(Snapshot(), id)
    {
      r := if id in byId then Some(byId[id]) else None;
    }
  }

  function Lookup(s: State, id: string): Option<Flow> {
    if id in s.byId then Some(s.byId[id]) else None
  }

  // ---- every run ----

  function Run(s: State, ops: seq<Op>): State
    decreases |ops|
  {
    if ops == [] then s else Run(Step(s, ops[0]), ops[1..])
  }

  predicate HasId(flows: seq<Flow>, id: string) {
    exists i | 0 <= i < |flows| :: flows[i].id == id
  }

  /** No flow is added under an identifier that is in the list at that moment. */
  predicate FreshIds(s: State, ops: seq<Op>)
    decreases |ops|
  {
    ops != [] ==>
      (ops[0].Add? ==> !HasId(s.flows, ops[0].flow.id)) && FreshIds(Step(s, ops[0]), ops[1..])
  }

  /** What the user did: the flows added since the last clear, without those removed. */
  function Wanted(flows: seq<Flow>, ops: seq<Op>): seq<Flow>
    decreases |ops|
  {
    if ops == [] then flows
    else
      var now := match ops[0]
                 case Add(f) => flows + [f]
                 case Remove(id) => Without(flows, id)
                 case SetMax(_) => flows
                 case Clear => [];
      Wanted(now, ops[1..])
  }

  function Without(flows: seq<Flow>, id: string): seq<Flow> {
    if flows == [] then [] else (if flows[0].id == id then [] else [flows[0]]) + Without(flows[1..], id)
  }

  ghost predicate IsSuffix(a: seq<Flow>, b: seq<Flow>) {
    |a| <= |b| && b[|b| - |a|..] == a
  }

  ghost predicate DistinctIds(flows: seq<Flow>) {
    forall i, j | 0 <= i < j < |flows| :: flows[i].id != flows[j].id
  }

  /** The index answers for exactly the listed flows, and identifiers are not repeated. */
  ghost predicate Indexed(s: State) {
    DistinctIds(s.flows) &&
    (forall i | 0 <= i < |s.flows| :: s.flows[i].id in s.byId && s.byId[s.flows[i].id] == s.flows[i]) &&
    (forall id | id in s.byId :: HasId(s.flows, id))
  }

  lemma DroppedIndexed(s: State)
    requires Indexed(s) && s.flows != []
    ensures Indexed(s.(flows := s.flows[1..], byId := s.byId - {s.flows[0].id}))
  {
    var t := s.(flows := s.flows[1..], byId := s.byId - {s.flows[0].id});
    forall id | id in t.byId
      ensures HasId(t.flows, id)
    {
      var i :| 0 <= i < |s.flows| && s.flows[i].id == id;
      assert t.flows[i - 1].id == id;
    }
  }

  lemma SuffixOfTail(a: seq<Flow>, b: seq<Flow>)
    requires b != [] && IsSuffix(a, b[1..])
    ensures IsSuffix(a, b)
  {
    assert b[1..][|b| - 1 - |a|..] == b[|b| - |a|..];
  }

  lemma {:induction false} TrimmedIndexed(s: State)
    requires Indexed(s)
    ensures Indexed(Trimmed(s)) && IsSuffix(Trimmed(s).flows, s.flows)
    decreases |s.flows|
  {
    hide Indexed;
    if |s.flows| > s.max {
      var t := s.(flows := s.flows[1..], byId := s.byId - {s.flows[0].id});
      DroppedIndexed(s);
      TrimmedIndexed(t);
      SuffixOfTail(Trimmed(t).flows, s.flows);
    }
  }

  lemma AddedIndexed(s: State, f: Flow)
    requires Indexed(s) && !HasId(s.flows, f.id)
    ensures Indexed(s.(flows := s.flows + [f], byId := s.byId[f.id := f]))
  {
    var t := s.(flows := s.flows + [f], byId := s.byId[f.id := f]);
    forall id | id in t.byId
      ensures HasId(t.flows, id)
    {
      if id == f.id {
        assert t.flows[|s.flows|].id == id;
      } else {
        var i :| 0 <= i < |s.flows| && s.flows[i].id == id;
        assert t.flows[i].id == id;
      }
    }
  }

  lemma RemovedIndexed(s: State, id: string)
    requires Indexed(s)
    ensures Indexed(Step(s, Remove(id)))
  {
    hide Indexed;
    if IndexById(s.flows, id).Some? {
      SplicedIndexed(s, IndexById(s.flows, id).value);
    }
  }

  lemma SplicedIndexed(s: State, k: nat)
    requires Indexed(s) && k < |s.flows|
    ensures Indexed(s.(flows := s.flows[..k] + s.flows[k + 1..], byId := s.byId - {s.flows[k].id}))
  {
    hide HasId;
    var t := s.(flows := s.flows[..k] + s.flows[k + 1..], byId := s.byId - {s.flows[k].id});
    assert forall i | 0 <= i < |t.flows| :: t.flows[i] == s.flows[if i < k then i else i + 1];
    forall other | other in t.byId
      ensures HasId(t.flows, other)
    {
      SplicedHas(s.flows, k, other);
    }
  }

  lemma SplicedHas(flows: seq<Flow>, k: nat, id: string)
    requires k < |flows| && HasId(flows, id) && flows[k].id != id
    ensures HasId(flows[..k] + flows[k + 1..], id)
  {
    var t := flows[..k] + flows[k + 1..];
    var i :| 0 <= i < |flows| && flows[i].id == id;
    assert t[if i < k then i else i - 1] == flows[i];
  }

  lemma {:induction false} WithoutAppend(a: seq<Flow>, b: seq<Flow>, id: string)
    ensures Without(a + b, id) == Without(a, id) + Without(b, id)
    decreases |a|
  {
    if a == [] {
      assert a + b == b;
    } else {
      assert (a + b)[0] == a[0] && (a + b)[1..] == a[1..] + b;
      WithoutAppend(a[1..], b, id);
    }
  }

  lemma {:induction false} WithoutAbsent(a: seq<Flow>, id: string)
    requires forall i | 0 <= i < |a| :: a[i].id != id
    ensures Without(a, id) == a
    decreases |a|
  {
    if a != [] {
      WithoutAbsent(a[1..], id);
    }
  }

  /** Splicing one entry out of a list with distinct identifiers leaves the list without that identifier. */
  lemma {:induction false} SpliceIsWithout(flows: seq<Flow>, k: nat)
    requires DistinctIds(flows) && k < |flows|
    ensures Without(flows, flows[k].id) == flows[..k] + flows[k + 1..]
    decreases |flows|
  {
    if k == 0 {
      WithoutAbsent(flows[1..], flows[0].id);
    } else {
      assert flows[0].id != flows[k].id;
      SpliceIsWithout(flows[1..], k - 1);
      assert flows[..k] + flows[k + 1..] == [flows[0]] + (flows[1..][..k - 1] + flows[1..][k..]);
    }
  }

  lemma RemoveIsWithout(s: State, id: string)
    requires Indexed(s)
    ensures Step(s, Remove(id)).flows == Without(s.flows, id)
  {
    hide Without, HasId;
    match IndexById(s.flows, id)
    case None => WithoutAbsent(s.flows, id);
    case Some(k) => SpliceIsWithout(s.flows, k);
  }

  lemma StepKeeps(s: State, op: Op, wanted: seq<Flow>)
    requires Indexed(s) && |s.flows| <= s.max && IsSuffix(s.flows, wanted)
    requires op.Add? ==> !HasId(s.flows, op.flow.id)
    ensures Indexed(Step(s, op)) && |Step(s, op).flows| <= Step(s, op).max
    ensures op.Add? ==> IsSuffix(Step(s, op).flows, wanted + [op.flow])
    ensures op.Remove? ==> IsSuffix(Step(s, op).flows, Without(wanted, op.id))
    ensures op.SetMax? ==> IsSuffix(Step(s, op).flows, wanted)
  {
    hide Indexed, Trimmed, IndexById, Without, HasId;
    match op
    case Add(f) =>
      AddedIndexed(s, f);
      TrimmedIndexed(s.(flows := s.flows + [f], byId := s.byId[f.id := f]));
      assert IsSuffix(s.flows + [f], wanted + [f]);
    case Remove(id) =>
      RemovedIndexed(s, id);
      RemoveIsWithout(s, id);
      var n := |wanted| - |s.flows|;
      assert wanted == wanted[..n] + s.flows;
      WithoutAppend(wanted[..n], s.flows, id);
    case SetMax(max) =>
      SameIndexed(s, max);
      TrimmedIndexed(s.(max := max));
    case Clear =>
      NothingIndexed(s.max);
  }

  lemma SameIndexed(s: State, max: nat)
    requires Indexed(s)
    ensures Indexed(s.(max := max))
  {}

  lemma NothingIndexed(max: nat)
    ensures Indexed(State([], map[], max))
  {}

  /** Over every run with fresh identifiers: the list is a suffix of the flows added since the last clear
      without those removed, it respects the maximum, and a flow is found by its identifier exactly when it
      is in the list. */
  lemma {:induction false} EveryRun(s: State, ops: seq<Op>, wanted: seq<Flow>)
    requires Indexed(s) && |s.flows| <= s.max && IsSuffix(s.flows, wanted) && FreshIds(s, ops)
    ensures var r := Run(s, ops);
            Indexed(r) && |r.flows| <= r.max && IsSuffix(r.flows, Wanted(wanted, ops))
    ensures var r := Run(s, ops); forall f: Flow :: Lookup(r, f.id) == Some(f) <==> f in r.flows
    decreases |ops|
  {
    hide Indexed, Step, Without, HasId;
    if ops == [] {
      assert forall f: Flow :: Lookup(s, f.id) == Some(f) <==> f in s.flows by {
        FoundIffListed(s);
      }
    } else {
      StepKeeps(s, ops[0], wanted);
      var now := match ops[0]
                 case Add(f) => wanted + [f]
                 case Remove(id) => Without(wanted, id)
                 case SetMax(_) => wanted
                 case Clear => [];
      if ops[0].Clear? {
        ClearEmpties(s);
      }
      EveryRun(Step(s, ops[0]), ops[1..], now);
    }
  }

  lemma ClearEmpties(s: State)
    ensures Step(s, Clear).flows == []
  {}

  lemma FoundIffListed(s: State)
    requires Indexed(s)
    ensures forall f: Flow :: Lookup(s, f.id) == Some(f) <==> f in s.flows
  {
    forall f: Flow
      ensures Lookup(s, f.id) == Some(f) <==> f in s.flows
    {
      if f.id in s.byId {
        var i :| 0 <= i < |s.flows| && s.flows[i].id == f.id;
      }
    }
  }

  /** Without fresh identifiers the index loses a listed flow: a maximum of two, three flows, one of them
      reusing the first one's identifier. */
  lemma ReuseLosesAFlow(a: Flow, b: Flow, c: Flow)
    requires a.id == b.id && c.id != a.id && a != b
    ensures var r := Run(State([], map[], 2), [Add(a), Add(b), Add(c)]);
            r.flows == [b, c] && Lookup(r, b.id) == None
  {
    var s1 := State([a], map[a.id := a], 2);
    var s2 := State([a, b], map[a.id := b], 2);
    var s3 := State([b, c], map[c.id := c], 2);
    assert Step(State([], map[], 2), Add(a)) == s1 by {
      assert [] + [a] == [a];
    }
    assert Step(s1, Add(b)) == s2 by {
      assert [a] + [b] == [a, b];
      assert map[a.id := a][b.id := b] == map[a.id := b];
    }
    assert Step(s2, Add(c)) == s3 by {
      var full := State([a, b, c], map[a.id := b][c.id := c], 2);
      assert [a, b] + [c] == [a, b, c] && [a, b, c][1..] == [b, c];
      assert map[a.id := b][c.id := c] - {a.id} == map[c.id := c];
      assert Trimmed(s3) == s3;
      assert Trimmed(full) == s3;
    }
    hide Step;
    assert [Add(a), Add(b), Add(c)][1..] == [Add(b), Add(c)];
    assert [Add(b), Add(c)][1..] == [Add(c)] && [Add(c)][1..] == [];
    assert Run(s3, []) == s3;
    assert Run(s2, [Add(c)]) == s3;
    assert Run(s1, [Add(b), Add(c)]) == s3;
  }

  // ---- exactly when ----

  /** Every listed flow is found by its identifier. */
  ghost predicate Findable(s: State) {
    forall i | 0 <= i < |s.flows| :: Lookup(s, s.flows[i].id) == Some(s.flows[i])
  }

  lemma IndexedIsFindable(s: State)
    requires Indexed(s)
    ensures Findable(s)
  {}

  /** An identifier in use that is added again: when the list was full and its first flow is the namesake, the trim
      takes the new flow out of the index; otherwise two listed flows share the identifier. */
  lemma ReusedIsNotIndexed(s: State, f: Flow)
    requires Indexed(s) && |s.flows| <= s.max && HasId(s.flows, f.id)
    ensures !Indexed(Step(s, Add(f)))
    ensures f !in s.flows ==> !Findable(Step(s, Add(f)))
  {
    var full := s.(flows := s.flows + [f], byId := s.byId[f.id := f]);
    var k :| 0 <= k < |s.flows| && s.flows[k].id == f.id;
    if |s.flows| < s.max {
      assert Trimmed(full) == full;
      assert full.flows[k] == s.flows[k] && full.flows[|s.flows|] == f;
      assert s.flows[k] in s.flows;
    } else {
      var t := full.(flows := full.flows[1..], byId := full.byId - {full.flows[0].id});
      assert Trimmed(full) == Trimmed(t) == t;
      assert t.flows[|s.flows| - 1] == f;
      if k > 0 {
        assert t.flows[k - 1] == s.flows[k];
        assert s.flows[k] in s.flows;
        assert s.flows[0].id != f.id;
      }
    }
  }

  /** Adding a flow keeps the index right exactly when its identifier is not in the list; and when the flow itself is
      not listed yet, that is exactly when every listed flow can be found afterwards. */
  lemma AddKeepsIff(s: State, f: Flow)
    requires Indexed(s) && |s.flows| <= s.max
    ensures Indexed(Step(s, Add(f))) <==> !HasId(s.flows, f.id)
    ensures f !in s.flows ==> (Findable(Step(s, Add(f))) <==> !HasId(s.flows, f.id))
  {
    hide Indexed, Findable, HasId, Step, IsSuffix;
    if HasId(s.flows, f.id) {
      ReusedIsNotIndexed(s, f);
    } else {
      SuffixOfItself(s.flows);
      StepKeeps(s, Add(f), s.flows);
      IndexedIsFindable(Step(s, Add(f)));
    }
  }

  lemma SuffixOfItself(a: seq<Flow>)
    ensures IsSuffix(a, a)
  {}

  /** The states a run goes through, the first and the last included. */
  function States(s: State, ops: seq<Op>): seq<State>
    decreases |ops|
  {
    [s] + if ops == [] then [] else States(Step(s, ops[0]), ops[1..])
  }

  /** The index is right throughout a run exactly when the run adds no flow under an identifier in use. */
  lemma {:induction false} RunKeepsIff(s: State, ops: seq<Op>)
    requires Indexed(s) && |s.flows| <= s.max
    ensures (forall i | 0 <= i < |States(s, ops)| :: Indexed(States(s, ops)[i])) <==> FreshIds(s, ops)
    decreases |ops|
  {
    hide Indexed, HasId, Step, IsSuffix;
    var all := States(s, ops);
    assert all[0] == s;
    if ops != [] {
      var next := Step(s, ops[0]);
      var rest := States(next, ops[1..]);
      assert all[1..] == rest;
      assert rest[0] == next && all[1] == next;
      if ops[0].Add? {
        AddKeepsIff(s, ops[0].flow);
        assert ops[0] == Add(ops[0].flow);
      }
      if !ops[0].Add? || !HasId(s.flows, ops[0].flow.id) {
        SuffixOfItself(s.flows);
        StepKeeps(s, ops[0], s.flows);
        RunKeepsIff(next, ops[1..]);
        assert forall i | 0 <= i < |rest| :: rest[i] == all[i + 1];
        assert forall i | 0 < i < |all| :: all[i] == rest[i - 1];
      } else {
        assert 1 < |States(s, ops)| && !Indexed(States(s, ops)[1]);
        ReusedIsNotFresh(s, ops);
      }
    }
  }

  lemma ReusedIsNotFresh(s: State, ops: seq<Op>)
    requires ops != [] && ops[0].Add? && HasId(s.flows, ops[0].flow.id)
    ensures !FreshIds(s, ops)
  {
    hide HasId, Step;
  }

  // ---- when trimming ends ----

  /** The list after n rounds of the trimming loop; shifting an empty list leaves it empty. */
  function Shifted(flows: seq<Flow>, n: nat): seq<Flow> {
    if n < |flows| then flows[n..] else []
  }

  /** The trimming loop comes to its end exactly when the maximum is not negative. */
  lemma TrimmingEndsIff(flows: seq<Flow>, max: int)
    ensures (exists n: nat :: |Shifted(flows, n)| <= max) <==> max >= 0
  {
    if max >= 0 {
      assert |Shifted(flows, |flows|)| <= max;
    }
  }
}
